/**
 Sealed command decisions: an approved command is digested when the operator approves it, and may be
 published once, and only as a command with the same digest.

 The digest function is a parameter. "No two texts collide" is a hypothesis of the theorems that need it.
 */
module CommandDecision {
  import opened CanonicalJson
  import opened JsonReader
  import opened Options
  import opened PyText

  // ---------------------------------------------------------------- data

  type Sha = string -> string

  ghost predicate CollisionFree(sha: Sha) {
    forall a, b :: sha(a) == sha(b) ==> a == b
  }

  datatype StageState = NONE | OK | FAILED

  datatype DecisionStatus = SEALED | PUBLISHED | REJECTED

  datatype ReasonCode = CMD_SPOOF_MISMATCH | CMD_ALREADY_PUBLISHED | CMD_EMPTY_COMMAND

  /** A Python tree of parameters: every dictionary has one entry per key. */
  type Parameters = p: PyValue | WellFormed(p) witness PNone

  datatype Command = Command(kind: string, subject: string, name: string, parameters: Parameters)

  datatype CommandIntent = CommandIntent(kind: string, subject: string, name: string, parameters: Parameters,
                                         operatorFacingTitle: string)

  datatype DecisionStages = DecisionStages(validation: StageState, publish: StageState, ack: StageState,
                                           effect: StageState, audit: StageState)

  datatype Decision = Decision(decisionId: string, intent: CommandIntent, digest: string, status: DecisionStatus,
                               stages: DecisionStages, reasonCodes: seq<ReasonCode>)
  {
    function SealedCommand(): Command {
      Command(intent.kind, intent.subject, intent.name, intent.parameters)
    }
  }

  datatype PublishAuthorization = PublishAuthorization(allowed: bool, decision: Decision, reasonCodes: seq<ReasonCode>)

  /** Equal commands: parameter dictionaries are compared as maps, without their order. */
  predicate SameCommand(c: Command, d: Command) {
    c.kind == d.kind && c.subject == d.subject && c.name == d.name && Meaning(c.parameters) == Meaning(d.parameters)
  }

  // ---------------------------------------------------------------- operations

  function BindingDigest(sha: Sha, c: Command): string {
    sha(Canonical(c.kind, c.subject, c.name, c.parameters))
  }

  /** `c.upper()` on the characters that can become one of N, A, T, S, C, O, M, D. */
  function Upper(c: char): char {
    if 'a' <= c <= 'z' then (c as int - 'a' as int + 'A' as int) as char
    else if c == '\U{017F}' then 'S'
    else c
  }

  predicate IsNatsCommand(kind: string) {
    var k := Strip(kind);
    seq(|k|, i requires 0 <= i < |k| => Upper(k[i])) == "NATS_COMMAND"
  }

  // ---------------------------------------------------------------- empty commands

  /** The character is the capital letter, or its small letter, or the long s for S; the underscore only itself. */
  predicate SameLetter(c: char, capital: char) {
    || c == capital
    || ('A' <= capital <= 'Z' && c as int == capital as int + 32)
    || (capital == 'S' && c == '\U{017F}')
  }

  /** The kind is NATS_COMMAND in any letter case, with white space around it. */
  ghost predicate NamesNats(kind: string) {
    exists i, j :: 0 <= i <= j <= |kind| && Blank(kind[..i]) && Blank(kind[j..]) && SpellsNats(kind[i..j])
  }

  predicate SpellsNats(word: string) {
    |word| == 12 && forall k | 0 <= k < 12 :: SameLetter(word[k], "NATS_COMMAND"[k])
  }

  /** A name without a visible character, or a NATS command without a visible character in its subject. */
  ghost predicate EmptyCommand(kind: string, subject: string, name: string) {
    Blank(name) || (NamesNats(kind) && Blank(subject))
  }

  // ---------------------------------------------------------------- operations on decisions

  lemma SameLetterIsUpper(c: char, capital: char)
    requires 'A' <= capital <= 'Z' || capital == '_'
    ensures Upper(c) == capital <==> SameLetter(c, capital)
  {
  }

  lemma CapitalLetters()
    ensures |"NATS_COMMAND"| == 12 && forall k | 0 <= k < 12 :: 'A' <= "NATS_COMMAND"[k] <= 'Z' || "NATS_COMMAND"[k] == '_'
  {
  }

  lemma SpellsNatsExactly(word: string)
    ensures SpellsNats(word) <==> seq(|word|, i requires 0 <= i < |word| => Upper(word[i])) == "NATS_COMMAND"
    ensures SpellsNats(word) ==> !IsSpace(word[0]) && !IsSpace(word[|word| - 1])
  {
    CapitalLetters();
    var upper, nats := seq(|word|, i requires 0 <= i < |word| => Upper(word[i])), "NATS_COMMAND";
    hide Upper;
    forall k | 0 <= k < 12 && k < |word| ensures upper[k] == nats[k] <==> SameLetter(word[k], nats[k]) {
      SameLetterIsUpper(word[k], nats[k]);
    }
    if upper == nats { assert SpellsNats(word); }
    if SpellsNats(word) { assert upper == nats; }
  }

  lemma NatsExactly(kind: string)
    ensures IsNatsCommand(kind) <==> NamesNats(kind)
  {
    hide SpellsNats, Blank, Strip;
    var i, j := StripParts(kind);
    SpellsNatsExactly(Strip(kind));
    if x, y :| 0 <= x <= y <= |kind| && Blank(kind[..x]) && Blank(kind[y..]) && SpellsNats(kind[x..y]) {
      SpellsNatsExactly(kind[x..y]);
      SpelledLength(kind[x..y]);
      StripOf(kind, x, y);
    }
  }

  lemma SpelledLength(word: string)
    requires SpellsNats(word)
    ensures |word| == 12
  {
  }

  lemma EmptyExactly(intent: CommandIntent)
    ensures InvalidIntent(intent) <==> EmptyCommand(intent.kind, intent.subject, intent.name)
  {
    hide IsNatsCommand, NamesNats, Strip;
    NatsExactly(intent.kind);
    var _, _ := StripParts(intent.name);
    var _, _ := StripParts(intent.subject);
  }

  predicate InvalidIntent(intent: CommandIntent) {
    Strip(intent.name) == "" || (IsNatsCommand(intent.kind) && Strip(intent.subject) == "")
  }

  function SealDecision(sha: Sha, decisionId: string, intent: CommandIntent): Decision {
    var digest := BindingDigest(sha, Command(intent.kind, intent.subject, intent.name, intent.parameters));
    if InvalidIntent(intent) then
      Decision(decisionId, intent, digest, REJECTED, DecisionStages(FAILED, NONE, NONE, NONE, NONE), [CMD_EMPTY_COMMAND])
    else
      Decision(decisionId, intent, digest, SEALED, DecisionStages(OK, NONE, NONE, NONE, NONE), [])
  }

  function AuthorizePublish(sha: Sha, decision: Decision, candidate: Command): PublishAuthorization {
    if decision.status == PUBLISHED then
      PublishAuthorization(false, decision, [CMD_ALREADY_PUBLISHED])
    else if decision.status == REJECTED then
      PublishAuthorization(false, decision, decision.reasonCodes)
    else if BindingDigest(sha, candidate) != decision.digest then
      var rejected := decision.(status := REJECTED, stages := decision.stages.(publish := FAILED),
                                reasonCodes := decision.reasonCodes + [CMD_SPOOF_MISMATCH]);
      PublishAuthorization(false, rejected, [CMD_SPOOF_MISMATCH])
    else
      PublishAuthorization(true, decision.(status := PUBLISHED, stages := decision.stages.(publish := OK)), [])
  }

  function Or(given: Option<StageState>, current: StageState): StageState {
    if given.Some? then given.value else current
  }

  function MarkStage(decision: Decision, ack: Option<StageState>, effect: Option<StageState>,
                     audit: Option<StageState>): Decision {
    decision.(stages := decision.stages.(ack := Or(ack, decision.stages.ack),
                                         effect := Or(effect, decision.stages.effect),
                                         audit := Or(audit, decision.stages.audit)))
  }

  // ---------------------------------------------------------------- the capped store

  /** A dictionary with its insertion order. */
  datatype StoreState = StoreState(order: seq<string>, byId: map<string, Decision>)
  {
    ghost predicate Valid(cap: int) {
      && cap >= 1 && |order| <= cap && Distinct(order)
      && (forall id :: id in order <==> id in byId)
      && (forall id | id in byId :: byId[id].decisionId == id)
    }

    function Insert(d: Decision): StoreState {
      StoreState(if d.decisionId in byId then order else order + [d.decisionId], byId[d.decisionId := d])
    }

    /** Drop the oldest entries until the store fits. */
    function Evict(cap: int): StoreState
      requires cap >= 1
      decreases |order|
    {
      if |order| <= cap then this else StoreState(order[1..], byId - {order[0]}).Evict(cap)
    }

    function Put(cap: int, d: Decision): StoreState
      requires cap >= 1
    {
      Insert(d).Evict(cap)
    }

    function Get(id: string): Option<Decision> {
      if id in byId then Some(byId[id]) else None
    }
  }

  class DecisionStore {
    var order: seq<string>
    var byId: map<string, Decision>
    const maxDecisions: int

    function State(): StoreState
      reads this
    {
      StoreState(order, byId)
    }

    ghost predicate Valid()
      reads this
    {
      State().Valid(maxDecisions)
    }

    constructor (maxDecisions: int)
      ensures Valid() && State() == StoreState([], map[])
      ensures this.maxDecisions == if maxDecisions < 1 then 1 else maxDecisions
    {
      order, byId := [], map[];
      this.maxDecisions := if maxDecisions < 1 then 1 else maxDecisions;
    }

    method Put(d: Decision)
      requires Valid()
      modifies this
      ensures Valid()
      ensures State() == old(State()).Put(maxDecisions, d)
      ensures State().Get(d.decisionId) == Some(d) && |order| <= maxDecisions
    {
      PutKeepsLatest(State(), maxDecisions, d);
      if d.decisionId !in byId { order := order + [d.decisionId]; }
      byId := byId[d.decisionId := d];
      while |order| > maxDecisions
        invariant State().Evict(maxDecisions) == old(State()).Put(maxDecisions, d)
        decreases |order|
      {
        byId := byId - {order[0]};
        order := order[1..];
      }
    }

    method Get(id: string) returns (r: Option<Decision>)
      ensures r == State().Get(id)
    {
      r := if id in byId then Some(byId[id]) else None;
    }

    method Has(id: string) returns (r: bool)
      ensures r <==> State().Get(id).Some?
    {
      r := id in byId;
    }

    /** The console's guard before anything is published: get, authorize, put. */
    method AuthorizePending(sha: Sha, id: string, candidate: Command) returns (allowed: bool)
      requires Valid()
      modifies this
      ensures Valid()
      ensures (State(), allowed) == PublishOn(sha, maxDecisions, old(State()), id, candidate)
    {
      var decision := Get(id);
      if decision.None? { return false; }
      var auth := AuthorizePublish(sha, decision.value, candidate);
      Put(auth.decision);
      allowed := auth.allowed;
    }
  }

  /** Get, authorize, put on a store value. */
  function PublishOn(sha: Sha, cap: int, s: StoreState, id: string, candidate: Command): (StoreState, bool)
    requires cap >= 1
  {
    match s.Get(id)
    case None => (s, false)
    case Some(d) =>
      var auth := AuthorizePublish(sha, d, candidate);
      (s.Put(cap, auth.decision), auth.allowed)
  }

  /** After a put the decision is found, the cap holds, every other entry is unchanged, and an entry is
      lost only when the store was full, the identifier new, and the entry the oldest. */
  lemma PutKeepsLatest(s: StoreState, cap: int, d: Decision)
    requires s.Valid(cap)
    ensures s.Put(cap, d).Valid(cap)
    ensures s.Put(cap, d).Get(d.decisionId) == Some(d)
    ensures forall id | id in s.Put(cap, d).byId && id != d.decisionId :: id in s.byId && s.Put(cap, d).byId[id] == s.byId[id]
    ensures forall id | id in s.byId && id !in s.Put(cap, d).byId ::
              |s.order| == cap && d.decisionId !in s.byId && id == s.order[0]
  {
    var t := s.Insert(d);
    if |t.order| > cap {
      var u := StoreState(t.order[1..], t.byId - {t.order[0]});
      assert |u.order| <= cap && u.Evict(cap) == u && t.Evict(cap) == u;
      forall id ensures id in u.order <==> id in u.byId {
        assert id in t.order <==> id == t.order[0] || id in t.order[1..];
      }
    }
  }

  // ---------------------------------------------------------------- runs

  datatype Publication = Publication(id: string, command: Command)

  /** The store, every intent ever sealed, every decision value anyone ever held, and what was published. */
  datatype World = World(store: StoreState, sealed: map<string, CommandIntent>, held: set<Decision>,
                         log: seq<Publication>)

  const INITIAL := World(StoreState([], map[]), map[], {}, [])

  /** `Return` is a late `put`: a caller marks stages on a decision it captured earlier and stores it. */
  datatype Action =
    | Seal(id: string, intent: CommandIntent)
    | Publish(id: string, candidate: Command)
    | Mark(id: string, ack: Option<StageState>, effect: Option<StageState>, audit: Option<StageState>)
    | Return(captured: Decision, ack: Option<StageState>, effect: Option<StageState>, audit: Option<StageState>)

  predicate WasPublished(w: World, id: string) {
    exists i | 0 <= i < |w.log| :: w.log[i].id == id
  }

  /** Identifiers are fresh; a captured decision that is still SEALED is not put back after its publication. */
  predicate Enabled(w: World, a: Action) {
    match a
    case Seal(id, _) => id !in w.sealed
    case Return(d, _, _, _) => d in w.held && (d.status == SEALED ==> !WasPublished(w, d.decisionId))
    case _ => true
  }

  function Step(sha: Sha, cap: int, w: World, a: Action): World
    requires cap >= 1
  {
    match a
    case Seal(id, intent) =>
      var d := SealDecision(sha, id, intent);
      w.(store := w.store.Put(cap, d), sealed := w.sealed[id := intent], held := w.held + {d})
    case Publish(id, candidate) =>
      (match w.store.Get(id)
       case None => w
       case Some(d) =>
         var (store', allowed) := PublishOn(sha, cap, w.store, id, candidate);
         w.(store := store', held := w.held + {AuthorizePublish(sha, d, candidate).decision},
            log := if allowed then w.log + [Publication(id, candidate)] else w.log))
    case Mark(id, ack, effect, audit) =>
      (match w.store.Get(id)
       case None => w
       case Some(d) =>
         var m := MarkStage(d, ack, effect, audit);
         w.(store := w.store.Put(cap, m), held := w.held + {m}))
    case Return(d, ack, effect, audit) =>
      var m := MarkStage(d, ack, effect, audit);
      w.(store := w.store.Put(cap, m), held := w.held + {m})
  }

  predicate EnabledRun(sha: Sha, cap: int, w: World, run: seq<Action>)
    requires cap >= 1
    decreases |run|
  {
    run == [] || (Enabled(w, run[0]) && EnabledRun(sha, cap, Step(sha, cap, w, run[0]), run[1..]))
  }

  function Run(sha: Sha, cap: int, w: World, run: seq<Action>): World
    requires cap >= 1
    decreases |run|
  {
    if run == [] then w else Run(sha, cap, Step(sha, cap, w, run[0]), run[1..])
  }

  // ---------------------------------------------------------------- the invariant

  /** The separate stages say what the status says. */
  predicate StagesAgree(d: Decision) {
    && (d.status == SEALED ==> d.stages.validation == OK && d.stages.publish == NONE)
    && (d.status == PUBLISHED ==> d.stages.validation == OK && d.stages.publish == OK)
    && (d.status == REJECTED ==>
          if d.stages.validation == FAILED
          then d.stages.publish == NONE && d.reasonCodes == [CMD_EMPTY_COMMAND]
          else d.stages.validation == OK && d.stages.publish == FAILED && d.reasonCodes == [CMD_SPOOF_MISMATCH])
    && (d.status == REJECTED <==> d.reasonCodes != [])
  }

  predicate Genuine(sha: Sha, w: World, d: Decision) {
    && d.decisionId in w.sealed && d.intent == w.sealed[d.decisionId]
    && d.digest == BindingDigest(sha, d.SealedCommand())
    && StagesAgree(d)
    && (d.stages.validation == FAILED <==> InvalidIntent(d.intent))
    && (d.status == PUBLISHED ==> WasPublished(w, d.decisionId))
  }

  function SealedAs(intent: CommandIntent): Command {
    Command(intent.kind, intent.subject, intent.name, intent.parameters)
  }

  ghost predicate LogSound(sha: Sha, w: World) {
    && (forall i, j | 0 <= i < j < |w.log| :: w.log[i].id != w.log[j].id)
    && (forall i | 0 <= i < |w.log| :: w.log[i].id in w.sealed && !InvalidIntent(w.sealed[w.log[i].id])
          && BindingDigest(sha, w.log[i].command) == BindingDigest(sha, SealedAs(w.sealed[w.log[i].id])))
  }

  /** A stored entry is held by someone, and is SEALED only while its command is unpublished. */
  predicate EntrySound(w: World, id: string)
    requires id in w.store.byId
  {
    w.store.byId[id] in w.held && (w.store.byId[id].status == SEALED ==> !WasPublished(w, id))
  }

  ghost predicate InvExcept(sha: Sha, cap: int, w: World, except: set<string>) {
    && w.store.Valid(cap)
    && (forall d | d in w.held :: Genuine(sha, w, d))
    && (forall id | id in w.store.byId && id !in except :: EntrySound(w, id))
    && LogSound(sha, w)
  }

  ghost predicate Inv(sha: Sha, cap: int, w: World) { InvExcept(sha, cap, w, {}) }

  /** Storing a genuine decision that may still be published, or is not SEALED, restores the invariant. */
  lemma StoreGenuine(sha: Sha, cap: int, w: World, d: Decision)
    requires InvExcept(sha, cap, w, {d.decisionId})
    requires Genuine(sha, w, d) && (d.status == SEALED ==> !WasPublished(w, d.decisionId))
    ensures Inv(sha, cap, w.(store := w.store.Put(cap, d), held := w.held + {d}))
  {
    hide InvalidIntent, BindingDigest;
    PutKeepsLatest(w.store, cap, d);
    var w' := w.(store := w.store.Put(cap, d), held := w.held + {d});
    assert forall id :: WasPublished(w', id) == WasPublished(w, id);
    forall id | id in w'.store.byId ensures EntrySound(w', id) {
      if id != d.decisionId { assert w'.store.byId[id] == w.store.byId[id] && EntrySound(w, id); }
    }
  }

  lemma AppendPublished(w: World, p: Publication, id: string)
    ensures WasPublished(w.(log := w.log + [p]), id) <==> WasPublished(w, id) || id == p.id
  {
    var w' := w.(log := w.log + [p]);
    if WasPublished(w, id) {
      var i :| 0 <= i < |w.log| && w.log[i].id == id;
      assert w'.log[i].id == id;
    }
    if id == p.id { assert w'.log[|w.log|].id == id; }
  }

  /** What a fresh seal looks like: SEALED or rejected as empty, never published. */
  lemma SealedFresh(sha: Sha, id: string, intent: CommandIntent)
    ensures var d := SealDecision(sha, id, intent);
            && d.decisionId == id && d.intent == intent && d.digest == BindingDigest(sha, d.SealedCommand())
            && StagesAgree(d) && d.status != PUBLISHED && (d.status == REJECTED <==> EmptyCommand(intent.kind, intent.subject, intent.name))
  {
    hide IsNatsCommand, NamesNats, Strip, Blank;
    EmptyExactly(intent);
  }

  lemma NewIntentKeepsInv(sha: Sha, cap: int, w: World, id: string, intent: CommandIntent)
    requires Inv(sha, cap, w) && id !in w.sealed
    ensures Inv(sha, cap, w.(sealed := w.sealed[id := intent]))
    ensures !WasPublished(w.(sealed := w.sealed[id := intent]), id)
  {
    hide InvalidIntent, BindingDigest;
    var w1 := w.(sealed := w.sealed[id := intent]);
    assert forall k :: WasPublished(w1, k) == WasPublished(w, k);
    forall d | d in w1.held ensures Genuine(sha, w1, d) { assert Genuine(sha, w, d); }
    forall k | k in w1.store.byId ensures EntrySound(w1, k) { assert EntrySound(w, k); }
  }

  lemma SealKeepsInv(sha: Sha, cap: int, w: World, id: string, intent: CommandIntent)
    requires Inv(sha, cap, w) && id !in w.sealed
    ensures Inv(sha, cap, Step(sha, cap, w, Seal(id, intent)))
  {
    hide InvalidIntent, EmptyCommand, BindingDigest;
    NewIntentKeepsInv(sha, cap, w, id, intent);
    SealedFresh(sha, id, intent);
    StoreGenuine(sha, cap, w.(sealed := w.sealed[id := intent]), SealDecision(sha, id, intent));
  }

  lemma LogKeepsInvExcept(sha: Sha, cap: int, w: World, d: Decision, candidate: Command)
    requires Inv(sha, cap, w) && d.decisionId in w.store.byId && w.store.byId[d.decisionId] == d && d.status == SEALED
    requires BindingDigest(sha, candidate) == d.digest
    ensures InvExcept(sha, cap, w.(log := w.log + [Publication(d.decisionId, candidate)]), {d.decisionId})
    ensures WasPublished(w.(log := w.log + [Publication(d.decisionId, candidate)]), d.decisionId)
  {
    hide InvalidIntent, BindingDigest;
    var p := Publication(d.decisionId, candidate);
    var w1 := w.(log := w.log + [p]);
    forall k ensures WasPublished(w1, k) <==> WasPublished(w, k) || k == p.id { AppendPublished(w, p, k); }
    assert EntrySound(w, d.decisionId) && Genuine(sha, w, d);
    forall e | e in w1.held ensures Genuine(sha, w1, e) { assert Genuine(sha, w, e); }
    forall id | id in w1.store.byId && id != d.decisionId ensures EntrySound(w1, id) { assert EntrySound(w, id); }
    forall i | 0 <= i < |w.log| ensures w.log[i].id != p.id {}
  }

  lemma PublishKeepsInv(sha: Sha, cap: int, w: World, id: string, candidate: Command)
    requires Inv(sha, cap, w)
    ensures Inv(sha, cap, Step(sha, cap, w, Publish(id, candidate)))
  {
    hide InvalidIntent, BindingDigest;
    if id in w.store.byId {
      var d := w.store.byId[id];
      assert EntrySound(w, id) && Genuine(sha, w, d);
      var auth := AuthorizePublish(sha, d, candidate);
      if auth.allowed {
        LogKeepsInvExcept(sha, cap, w, d, candidate);
        StoreGenuine(sha, cap, w.(log := w.log + [Publication(id, candidate)]), auth.decision);
      } else {
        StoreGenuine(sha, cap, w, auth.decision);
      }
    }
  }

  lemma StepKeepsInv(sha: Sha, cap: int, w: World, a: Action)
    requires Inv(sha, cap, w) && Enabled(w, a)
    ensures Inv(sha, cap, Step(sha, cap, w, a))
  {
    hide InvalidIntent, BindingDigest;
    match a
    case Seal(id, intent) => SealKeepsInv(sha, cap, w, id, intent);
    case Publish(id, candidate) => PublishKeepsInv(sha, cap, w, id, candidate);
    case Mark(id, ack, effect, audit) =>
      if id in w.store.byId {
        assert EntrySound(w, id) && Genuine(sha, w, w.store.byId[id]);
        StoreGenuine(sha, cap, w, MarkStage(w.store.byId[id], ack, effect, audit));
      }
    case Return(d, ack, effect, audit) =>
      StoreGenuine(sha, cap, w, MarkStage(d, ack, effect, audit));
  }

  lemma {:induction false} RunKeepsInv(sha: Sha, cap: int, w: World, run: seq<Action>)
    requires cap >= 1 && Inv(sha, cap, w) && EnabledRun(sha, cap, w, run)
    ensures Inv(sha, cap, Run(sha, cap, w, run))
    decreases |run|
  {
    if run != [] {
      StepKeepsInv(sha, cap, w, run[0]);
      RunKeepsInv(sha, cap, Step(sha, cap, w, run[0]), run[1..]);
    }
  }

  // ---------------------------------------------------------------- main results

  /** What is digested is a JSON text, and a JSON reader finds in it the four fields of the command by their names. */
  lemma DigestedTextIsTheCommand(sha: Sha, c: Command) returns (text: string)
    ensures BindingDigest(sha, c) == sha(text)
    ensures Read(text) == Some(VDict(map["kind" := VStr(c.kind), "subject" := VStr(c.subject), "name" := VStr(c.name),
                                         "parameters" := Meaning(c.parameters)]))
  {
    text := Canonical(c.kind, c.subject, c.name, c.parameters);
    CanonicalReadsBack(c.kind, c.subject, c.name, c.parameters);
  }

  /** The digest comparison is the comparison of commands. */
  lemma DigestBinds(sha: Sha, c: Command, d: Command)
    requires CollisionFree(sha)
    ensures BindingDigest(sha, c) == BindingDigest(sha, d) <==> SameCommand(c, d)
  {
    CanonicalInjective(c.kind, c.subject, c.name, c.parameters, d.kind, d.subject, d.name, d.parameters);
  }

  /** In every run, across evictions and late puts, each decision is published at most once, and what is
      published is the command the operator approved under that identifier. */
  lemma PublishedOnceAndAsSealed(sha: Sha, cap: int, run: seq<Action>)
    requires cap >= 1 && CollisionFree(sha) && EnabledRun(sha, cap, INITIAL, run)
    ensures var w := Run(sha, cap, INITIAL, run);
            && (forall i, j | 0 <= i < j < |w.log| :: w.log[i].id != w.log[j].id)
            && (forall i | 0 <= i < |w.log| :: w.log[i].id in w.sealed
                  && SameCommand(w.log[i].command, SealedAs(w.sealed[w.log[i].id])))
  {
    hide InvalidIntent, BindingDigest;
    RunKeepsInv(sha, cap, INITIAL, run);
    var w := Run(sha, cap, INITIAL, run);
    forall i | 0 <= i < |w.log|
      ensures w.log[i].id in w.sealed && SameCommand(w.log[i].command, SealedAs(w.sealed[w.log[i].id]))
    {
      DigestBinds(sha, w.log[i].command, SealedAs(w.sealed[w.log[i].id]));
    }
  }

  /** In every run nothing empty is published: every published command has a visible name, and a visible subject if
      it is a NATS command. */
  lemma NothingEmptyIsPublished(sha: Sha, cap: int, run: seq<Action>)
    requires cap >= 1 && CollisionFree(sha) && EnabledRun(sha, cap, INITIAL, run)
    ensures forall i | 0 <= i < |Run(sha, cap, INITIAL, run).log| ::
              var c := Run(sha, cap, INITIAL, run).log[i].command;
              !Blank(c.name) && (NamesNats(c.kind) ==> !Blank(c.subject))
  {
    hide NamesNats, Blank, Inv;
    RunKeepsInv(sha, cap, INITIAL, run);
    LogIsVisible(sha, cap, Run(sha, cap, INITIAL, run));
  }

  lemma LogIsVisible(sha: Sha, cap: int, w: World)
    requires Inv(sha, cap, w) && CollisionFree(sha)
    ensures forall i | 0 <= i < |w.log| ::
              !Blank(w.log[i].command.name) && (NamesNats(w.log[i].command.kind) ==> !Blank(w.log[i].command.subject))
  {
    hide NamesNats, Blank, InvalidIntent, BindingDigest;
    forall i | 0 <= i < |w.log|
      ensures !Blank(w.log[i].command.name) && (NamesNats(w.log[i].command.kind) ==> !Blank(w.log[i].command.subject))
    {
      var sealed := w.sealed[w.log[i].id];
      EmptyExactly(sealed);
      DigestBinds(sha, w.log[i].command, SealedAs(sealed));
    }
  }

  /** In every run the stored decisions stay in step with their status, and the cap holds. */
  lemma StoredDecisionsAgree(sha: Sha, cap: int, run: seq<Action>)
    requires cap >= 1 && EnabledRun(sha, cap, INITIAL, run)
    ensures var w := Run(sha, cap, INITIAL, run);
            && |w.store.order| <= cap
            && forall id | id in w.store.byId ::
                 && w.store.byId[id].decisionId == id
                 && StagesAgree(w.store.byId[id])
                 && (w.store.byId[id].status == PUBLISHED <==> WasPublished(w, id) && w.store.byId[id].status != REJECTED)
  {
    hide InvalidIntent, BindingDigest;
    RunKeepsInv(sha, cap, INITIAL, run);
  }

  /** A publication goes through exactly when the decision is stored, still SEALED, and the candidate is the
      sealed command. */
  lemma PublishesExactly(sha: Sha, cap: int, w: World, id: string, candidate: Command)
    requires cap >= 1 && CollisionFree(sha) && Inv(sha, cap, w)
    ensures var w' := Step(sha, cap, w, Publish(id, candidate));
            if id in w.store.byId && w.store.byId[id].status == SEALED
               && SameCommand(candidate, SealedAs(w.sealed[id]))
            then w'.log == w.log + [Publication(id, candidate)]
            else w'.log == w.log
  {
    hide InvalidIntent, BindingDigest;
    if id in w.store.byId {
      DigestBinds(sha, candidate, w.store.byId[id].SealedCommand());
    }
  }

  /** What an authorization answers, and that it changes nothing but status, publish stage and reason codes: it
      gives reasons exactly when it refuses. */
  lemma AuthorizationAnswers(sha: Sha, d: Decision, candidate: Command)
    requires StagesAgree(d)
    ensures var auth := AuthorizePublish(sha, d, candidate);
            && (auth.allowed <==> auth.reasonCodes == [])
            && (auth.allowed <==> d.status == SEALED && BindingDigest(sha, candidate) == d.digest)
            && (d.status == PUBLISHED ==> auth.reasonCodes == [CMD_ALREADY_PUBLISHED] && auth.decision == d)
            && (d.status == REJECTED ==> auth.reasonCodes == d.reasonCodes && auth.decision == d)
            && (d.status == SEALED && !auth.allowed ==> auth.reasonCodes == auth.decision.reasonCodes == [CMD_SPOOF_MISMATCH])
            && auth.decision.decisionId == d.decisionId && auth.decision.intent == d.intent && auth.decision.digest == d.digest
            && auth.decision.stages.validation == d.stages.validation && auth.decision.stages.ack == d.stages.ack
            && auth.decision.stages.effect == d.stages.effect && auth.decision.stages.audit == d.stages.audit
            && StagesAgree(auth.decision)
  {
  }

  /** Marks touch the three later stages alone; a stage has the last value it was given, and keeps the one it had if
      it was given none. */
  lemma MarksAreLastGiven(d: Decision, ack: Option<StageState>, effect: Option<StageState>, audit: Option<StageState>,
                          ack': Option<StageState>, effect': Option<StageState>, audit': Option<StageState>)
    ensures MarkStage(d, None, None, None) == d
    ensures var m := MarkStage(MarkStage(d, ack, effect, audit), ack', effect', audit');
            && m == MarkStage(d, if ack'.Some? then ack' else ack, if effect'.Some? then effect' else effect,
                              if audit'.Some? then audit' else audit)
            && (ack'.Some? ==> m.stages.ack == ack'.value) && (effect'.Some? ==> m.stages.effect == effect'.value)
            && (audit'.Some? ==> m.stages.audit == audit'.value)
            && m.(stages := d.stages) == d && m.stages.validation == d.stages.validation && m.stages.publish == d.stages.publish
  {
  }

  /** An approved command can be published right after it is sealed, whatever happened before. */
  lemma HonestPublishGoesThrough(sha: Sha, cap: int, w: World, id: string, intent: CommandIntent)
    requires cap >= 1 && CollisionFree(sha) && Inv(sha, cap, w) && id !in w.sealed
    requires !EmptyCommand(intent.kind, intent.subject, intent.name)
    ensures var w1 := Step(sha, cap, w, Seal(id, intent));
            Step(sha, cap, w1, Publish(id, SealedAs(intent))).log == w.log + [Publication(id, SealedAs(intent))]
  {
    EmptyExactly(intent);
    hide EmptyCommand, InvalidIntent, BindingDigest;
    var w1 := Step(sha, cap, w, Seal(id, intent));
    SealKeepsInv(sha, cap, w, id, intent);
    PutKeepsLatest(w.store, cap, SealDecision(sha, id, intent));
    PublishesExactly(sha, cap, w1, id, SealedAs(intent));
  }

  /** After a late put some candidate can be published under that identifier if and only if the captured value is
      still SEALED, whatever was stored before. */
  lemma ReturnReopensExactly(sha: Sha, cap: int, w: World, d: Decision, ack: Option<StageState>, effect: Option<StageState>,
                             audit: Option<StageState>)
    requires cap >= 1 && Inv(sha, cap, w) && d in w.held
    ensures var w1 := Step(sha, cap, w, Return(d, ack, effect, audit));
            (exists c :: |Step(sha, cap, w1, Publish(d.decisionId, c)).log| > |w.log|) <==> d.status == SEALED
  {
    hide InvalidIntent, BindingDigest;
    var w1 := Step(sha, cap, w, Return(d, ack, effect, audit));
    PutKeepsLatest(w.store, cap, MarkStage(d, ack, effect, audit));
    if d.status == SEALED {
      var c := d.SealedCommand();
      assert Genuine(sha, w, d);
      assert |Step(sha, cap, w1, Publish(d.decisionId, c)).log| > |w.log|;
    }
  }

  /** Rejection is final up to late puts: a stored REJECTED decision becomes SEALED again in a step if and only if
      the step puts back a value of it that is still SEALED. */
  lemma RejectionIsFinalExactly(sha: Sha, cap: int, w: World, id: string, a: Action)
    requires cap >= 1 && Inv(sha, cap, w) && Enabled(w, a) && id in w.store.byId && w.store.byId[id].status == REJECTED
    ensures var w1 := Step(sha, cap, w, a);
            id in w1.store.byId && w1.store.byId[id].status == SEALED <==>
              a.Return? && a.captured.decisionId == id && a.captured.status == SEALED
  {
    StoredIsSealed(sha, cap, w, id);
    PutKeepsRejected(sha, cap, w, id, a);
    StepPuts(sha, cap, w, a);
    hide Step, Inv, Enabled, PutBy, StoreState.Put;
    if PutBy(sha, w, a).Some? { SealedAfterPut(w.store, cap, PutBy(sha, w, a).value, id); }
  }

  /** The decision that an action stores. */
  function PutBy(sha: Sha, w: World, a: Action): Option<Decision> {
    match a
    case Seal(id, intent) => Some(SealDecision(sha, id, intent))
    case Publish(id, candidate) =>
      if id in w.store.byId then Some(AuthorizePublish(sha, w.store.byId[id], candidate).decision) else None
    case Mark(id, ack, effect, audit) => if id in w.store.byId then Some(MarkStage(w.store.byId[id], ack, effect, audit)) else None
    case Return(d, ack, effect, audit) => Some(MarkStage(d, ack, effect, audit))
  }

  lemma StepPuts(sha: Sha, cap: int, w: World, a: Action)
    requires cap >= 1
    ensures var d := PutBy(sha, w, a); Step(sha, cap, w, a).store == if d.None? then w.store else w.store.Put(cap, d.value)
  {
    hide SealDecision, MarkStage, StoreState.Put, BindingDigest;
  }

  lemma PutKeepsRejected(sha: Sha, cap: int, w: World, id: string, a: Action)
    requires Inv(sha, cap, w) && Enabled(w, a) && id in w.store.byId && id in w.sealed && w.store.byId[id].status == REJECTED
    ensures var d := PutBy(sha, w, a);
            d.Some? && d.value.decisionId == id && d.value.status == SEALED <==>
              a.Return? && a.captured.decisionId == id && a.captured.status == SEALED
  {
    hide BindingDigest, InvalidIntent, WasPublished;
    if (a.Publish? || a.Mark?) && a.id in w.store.byId { StoredIsSealed(sha, cap, w, a.id); }
  }

  lemma StoredIsSealed(sha: Sha, cap: int, w: World, id: string)
    requires Inv(sha, cap, w) && id in w.store.byId
    ensures cap >= 1 && w.store.Valid(cap) && w.store.byId[id].decisionId == id && id in w.sealed
  {
    hide BindingDigest, InvalidIntent;
    assert EntrySound(w, id) && Genuine(sha, w, w.store.byId[id]);
  }

  lemma SealedAfterPut(s: StoreState, cap: int, d: Decision, id: string)
    requires s.Valid(cap) && id in s.byId && s.byId[id].status == REJECTED
    ensures var t := s.Put(cap, d);
            id in t.byId && t.byId[id].status == SEALED <==> d.decisionId == id && d.status == SEALED
  {
    PutKeepsLatest(s, cap, d);
  }

  /** A rejected decision can be revived: after a late put some candidate can be published under its identifier if
      and only if the captured value is still SEALED, and such a put is permitted while nothing was published. */
  lemma RejectedRevivesExactly(sha: Sha, cap: int, w: World, d: Decision, ack: Option<StageState>, effect: Option<StageState>,
                               audit: Option<StageState>)
    requires cap >= 1 && Inv(sha, cap, w) && d in w.held
    requires d.decisionId in w.store.byId && w.store.byId[d.decisionId].status == REJECTED
    ensures var w1 := Step(sha, cap, w, Return(d, ack, effect, audit));
            (exists c :: |Step(sha, cap, w1, Publish(d.decisionId, c)).log| > |w.log|) <==> d.status == SEALED
    ensures !WasPublished(w, d.decisionId) ==> Enabled(w, Return(d, ack, effect, audit))
    ensures forall c :: Step(sha, cap, w, Publish(d.decisionId, c)).log == w.log
  {
    hide InvalidIntent, BindingDigest;
    ReturnReopensExactly(sha, cap, w, d, ack, effect, audit);
  }

  /** The guard on late puts is exact: putting a captured decision back lets an already published command be
      published again if and only if the captured value is still SEALED. */
  lemma LateReturnRepublishes(sha: Sha, cap: int, w: World, d: Decision)
    requires cap >= 1 && Inv(sha, cap, w) && d in w.held && WasPublished(w, d.decisionId)
    ensures var w1 := Step(sha, cap, w, Return(d, None, None, None));
            (exists c :: |Step(sha, cap, w1, Publish(d.decisionId, c)).log| > |w.log|) <==> d.status == SEALED
  {
    ReturnReopensExactly(sha, cap, w, d, None, None, None);
  }

  // ---------------------------------------------------------------- two runs with a late put

  lemma RunOfFour(sha: Sha, cap: int, w: World, a: Action, b: Action, c: Action, d: Action)
    requires cap >= 1
    ensures var w1 := Step(sha, cap, w, a); var w2 := Step(sha, cap, w1, b); var w3 := Step(sha, cap, w2, c);
            && Run(sha, cap, w, [a, b, c, d]) == Step(sha, cap, w3, d)
            && (EnabledRun(sha, cap, w, [a, b, c, d]) <==> Enabled(w, a) && Enabled(w1, b) && Enabled(w2, c) && Enabled(w3, d))
  {
    hide Step, Enabled;
    var w1 := Step(sha, cap, w, a);
    var w2 := Step(sha, cap, w1, b);
    var w3 := Step(sha, cap, w2, c);
    assert [a, b, c, d][1..] == [b, c, d] && [b, c, d][1..] == [c, d] && [c, d][1..] == [d] && [d][1..] == [];
    assert Run(sha, cap, w3, [d]) == Step(sha, cap, w3, d);
    assert Run(sha, cap, w2, [c, d]) == Run(sha, cap, w3, [d]);
    assert Run(sha, cap, w1, [b, c, d]) == Run(sha, cap, w2, [c, d]);
    assert EnabledRun(sha, cap, w3, [d]) <==> Enabled(w3, d);
    assert EnabledRun(sha, cap, w2, [c, d]) <==> Enabled(w2, c) && EnabledRun(sha, cap, w3, [d]);
    assert EnabledRun(sha, cap, w1, [b, c, d]) <==> Enabled(w1, b) && EnabledRun(sha, cap, w2, [c, d]);
  }

  /** Publishing against a stored SEALED decision. */
  lemma PublishStored(sha: Sha, cap: int, w: World, d: Decision, candidate: Command)
    requires w.store.Valid(cap) && w.store.Get(d.decisionId) == Some(d) && d.status == SEALED
    ensures var w1 := Step(sha, cap, w, Publish(d.decisionId, candidate));
            && w1.store.Valid(cap) && w.held <= w1.held && d.decisionId in w1.store.byId
            && (if BindingDigest(sha, candidate) == d.digest
                then w1.log == w.log + [Publication(d.decisionId, candidate)] && w1.store.byId[d.decisionId].status == PUBLISHED
                else w1.log == w.log && w1.store.byId[d.decisionId].status == REJECTED)
  {
    hide InvalidIntent, BindingDigest;
    PutKeepsLatest(w.store, cap, AuthorizePublish(sha, d, candidate).decision);
  }

  lemma ReturnStored(sha: Sha, cap: int, w: World, d: Decision)
    requires w.store.Valid(cap)
    ensures var w1 := Step(sha, cap, w, Return(d, None, None, None));
            w1.store.Valid(cap) && w1.store.Get(d.decisionId) == Some(d) && w1.log == w.log
  {
    PutKeepsLatest(w.store, cap, MarkStage(d, None, None, None));
    assert MarkStage(d, None, None, None) == d;
  }

  /** Seal any valid command, try any candidate, put the sealed value back, publish the sealed command: with the
      sealed command itself as the candidate it is published twice under one identifier; with any other one it is
      rejected and then published. */
  lemma LateReturnRuns(sha: Sha, cap: int, id: string, intent: CommandIntent, candidate: Command)
    requires cap >= 1 && !EmptyCommand(intent.kind, intent.subject, intent.name)
    ensures var d, honest := SealDecision(sha, id, intent), Publication(id, SealedAs(intent));
            var run := [Seal(id, intent), Publish(id, candidate), Return(d, None, None, None), Publish(id, SealedAs(intent))];
            var middle := Step(sha, cap, Step(sha, cap, INITIAL, run[0]), run[1]);
            var log := Run(sha, cap, INITIAL, run).log;
            && id in middle.store.byId && d in middle.held
            && if BindingDigest(sha, candidate) == d.digest
               then log == [Publication(id, candidate), honest] && middle.store.byId[id].status == PUBLISHED
               else log == [honest] && middle.store.byId[id].status == REJECTED && EnabledRun(sha, cap, INITIAL, run)
  {
    var d := SealDecision(sha, id, intent);
    var w1 := Step(sha, cap, INITIAL, Seal(id, intent));
    SealedFresh(sha, id, intent);
    PutKeepsLatest(INITIAL.store, cap, d);
    assert w1.store.Get(id) == Some(d) && d in w1.held && w1.log == [];
    LateReturnFrom(sha, cap, w1, d, candidate);
    RunOfFour(sha, cap, INITIAL, Seal(id, intent), Publish(id, candidate), Return(d, None, None, None), Publish(id, SealedAs(intent)));
  }

  lemma LateReturnFrom(sha: Sha, cap: int, w: World, d: Decision, candidate: Command)
    requires w.store.Valid(cap) && w.store.Get(d.decisionId) == Some(d) && d.status == SEALED && d in w.held && w.log == []
    requires d.digest == BindingDigest(sha, SealedAs(d.intent))
    ensures var id, command := d.decisionId, SealedAs(d.intent);
            var w2 := Step(sha, cap, w, Publish(id, candidate));
            var w3 := Step(sha, cap, w2, Return(d, None, None, None));
            var log := Step(sha, cap, w3, Publish(id, command)).log;
            && id in w2.store.byId && d in w2.held
            && if BindingDigest(sha, candidate) == d.digest
               then log == [Publication(id, candidate), Publication(id, command)] && w2.store.byId[id].status == PUBLISHED
               else log == [Publication(id, command)] && w2.store.byId[id].status == REJECTED && Enabled(w2, Return(d, None, None, None))
  {
    hide InvalidIntent, BindingDigest;
    hide Step, AuthorizePublish, BindingDigest;
    PublishStored(sha, cap, w, d, candidate);
    var w2 := Step(sha, cap, w, Publish(d.decisionId, candidate));
    ReturnStored(sha, cap, w2, d);
    var w3 := Step(sha, cap, w2, Return(d, None, None, None));
    PublishStored(sha, cap, w3, d, SealedAs(d.intent));
  }
}
