/**
 The client's cache of derived documents: entries live for a time, and documents found missing are remembered
 until a forced fetch or an invalidation. The server is any function of document key and time.
 */
module DerivedDocCache {
  import opened Options
  import opened PyText

  type Payload = string

  /** What the server holds for a key at an instant: nothing, a JSON null, or a document. */
  datatype Document = ABSENT | NULL | Doc(payload: Payload)

  type Server = (string, real) -> Document

  /** How a request ended; `Found(None)` is a JSON null. */
  datatype Response = HTTP_ERROR | NOT_FOUND | ERROR_STATUS | Found(payload: Option<Payload>)

  /** One request: when the server answered, and what the clock read when the reply was stored. */
  datatype Reply = Reply(response: Response, answered: real, stamped: real)

  datatype Cached = Cached(createdAt: real, payload: Option<Payload>)

  datatype CacheState = CacheState(docs: map<string, Cached>, missing: set<string>)

  datatype Outcome = Returned(payload: Option<Payload>) | Raised

  // ---------------------------------------------------------------- one fetch

  predicate Alive(ttl: real, createdAt: real, now: real) { now - createdAt <= ttl }

  /** Whether the fetch goes to the server. */
  predicate Asks(s: CacheState, ttl: real, key: string, force: bool, now: real) {
    force || (!(key in s.docs && Alive(ttl, s.docs[key].createdAt, now)) && key !in s.missing)
  }

  function Fetched(s: CacheState, ttl: real, key: string, force: bool, now: real, reply: Reply): (CacheState, Outcome) {
    if !force && key in s.docs && Alive(ttl, s.docs[key].createdAt, now) then (s, Returned(s.docs[key].payload))
    else if !force && key in s.missing then (s, Returned(None))
    else
      match reply.response
      case ERROR_STATUS => (s, Raised)
      case Found(p) => (CacheState(s.docs[key := Cached(reply.stamped, p)], s.missing - {key}), Returned(p))
      case _ => (CacheState(s.docs[key := Cached(reply.stamped, None)], s.missing + {key}), Returned(None))
  }

  /** `module_path.replace('/', '_').replace('.', '__')` */
  function SafeName(modulePath: string): string {
    if modulePath == "" then ""
    else (if modulePath[0] == '/' then "_" else if modulePath[0] == '.' then "__" else [modulePath[0]]) + SafeName(modulePath[1..])
  }

  function ModuleKey(modulePath: string): string { "llm_module_" + SafeName(modulePath) }

  function Invalidated(s: CacheState, modulePath: Option<string>): CacheState {
    match modulePath
    case None => CacheState(map[], {})
    case Some(m) => CacheState(s.docs - {ModuleKey(m)}, s.missing - {ModuleKey(m)})
  }

  class TuiClient {
    const cacheTtl: real
    var derivedDocCache: map<string, Cached>
    var missingDerivedDocs: set<string>

    constructor (cacheTtl: real)
      ensures View() == CacheState(map[], {}) && this.cacheTtl == cacheTtl
    {
      this.cacheTtl := cacheTtl;
      derivedDocCache, missingDerivedDocs := map[], {};
    }

    function View(): CacheState
      reads this
    {
      CacheState(derivedDocCache, missingDerivedDocs)
    }

    method FetchDerivedDoc(docKey: string, force: bool, now: real, reply: Reply) returns (r: Outcome)
      modifies this
      ensures (View(), r) == Fetched(old(View()), cacheTtl, docKey, force, now, reply)
    {
      if !force && docKey in derivedDocCache && now - derivedDocCache[docKey].createdAt <= cacheTtl {
        return Returned(derivedDocCache[docKey].payload);
      }
      if !force && docKey in missingDerivedDocs { return Returned(None); }
      match reply.response
      case HTTP_ERROR =>
        derivedDocCache := derivedDocCache[docKey := Cached(reply.stamped, None)];
        missingDerivedDocs := missingDerivedDocs + {docKey};
        r := Returned(None);
      case NOT_FOUND =>
        derivedDocCache := derivedDocCache[docKey := Cached(reply.stamped, None)];
        missingDerivedDocs := missingDerivedDocs + {docKey};
        r := Returned(None);
      case ERROR_STATUS =>
        r := Raised;
      case Found(payload) =>
        derivedDocCache := derivedDocCache[docKey := Cached(reply.stamped, payload)];
        missingDerivedDocs := missingDerivedDocs - {docKey};
        r := Returned(payload);
    }

    method InvalidateRuntimeCache()
      modifies this
      ensures View() == Invalidated(old(View()), None)
    {
      derivedDocCache, missingDerivedDocs := map[], {};
    }

    method InvalidateArtifactCache(modulePath: Option<string>)
      modifies this
      ensures View() == Invalidated(old(View()), modulePath)
    {
      if modulePath.None? {
        derivedDocCache, missingDerivedDocs := map[], {};
        return;
      }
      var key := ModuleKey(modulePath.value);
      derivedDocCache := map k | k in derivedDocCache && k != key :: derivedDocCache[k];
      missingDerivedDocs := missingDerivedDocs - {key};
    }
  }

  // ---------------------------------------------------------------- runs

  datatype Action =
    | Fetch(key: string, force: bool, now: real, reply: Reply)
    | Invalidate(modulePath: Option<string>)

  function Step(s: CacheState, ttl: real, a: Action): CacheState {
    match a
    case Fetch(key, force, now, reply) => Fetched(s, ttl, key, force, now, reply).0
    case Invalidate(m) => Invalidated(s, m)
  }

  function Run(ttl: real, run: seq<Action>): CacheState {
    if run == [] then CacheState(map[], {}) else Step(Run(ttl, run[..|run| - 1]), ttl, run[|run| - 1])
  }

  /** When the caller gets its answer: at once from the cache, else when the reply is stored. */
  function AnswerTime(s: CacheState, ttl: real, a: Action): real
    requires a.Fetch?
  {
    if Asks(s, ttl, a.key, a.force, a.now) then a.reply.stamped else a.now
  }

  /** A fetch that goes to the server gets what the server holds when it answers, and stores it within `latency`. */
  predicate Honest(server: Server, latency: real, ttl: real, s: CacheState, a: Action) {
    a.Fetch? && Asks(s, ttl, a.key, a.force, a.now) ==>
      && a.now <= a.reply.answered <= a.reply.stamped <= a.reply.answered + latency
      && (a.reply.response.Found? ==>
            server(a.key, a.reply.answered) ==
            match a.reply.response.payload case None => NULL case Some(p) => Doc(p))
  }

  ghost predicate HonestRun(server: Server, latency: real, ttl: real, run: seq<Action>) {
    forall i | 0 <= i < |run| :: Honest(server, latency, ttl, Run(ttl, run[..i]), run[i])
  }

  /** The clock is monotone: a fetch starts no earlier than every earlier one was answered. */
  ghost predicate Chronological(ttl: real, run: seq<Action>) {
    forall i, j | 0 <= i < j < |run| && run[i].Fetch? && run[j].Fetch? ::
      AnswerTime(Run(ttl, run[..i]), ttl, run[i]) <= run[j].now
  }

  /** The server held the payload at some instant before `createdAt`, at most `latency` earlier. */
  ghost predicate HeldShortlyBefore(server: Server, latency: real, key: string, p: Payload, createdAt: real) {
    exists t: real :: t <= createdAt && createdAt - t <= latency && server(key, t) == Doc(p)
  }

  ghost predicate Inv(server: Server, latency: real, s: CacheState) {
    && (forall k | k in s.missing :: k in s.docs && s.docs[k].payload == None)
    && (forall k | k in s.docs && s.docs[k].payload.Some? ::
          HeldShortlyBefore(server, latency, k, s.docs[k].payload.value, s.docs[k].createdAt))
  }

  /** Every entry was stored by the instant `now`. */
  ghost predicate StampedBy(s: CacheState, now: real) { forall k | k in s.docs :: s.docs[k].createdAt <= now }

  lemma StepKeepsInv(server: Server, latency: real, ttl: real, s: CacheState, a: Action)
    requires Inv(server, latency, s) && Honest(server, latency, ttl, s, a)
    ensures Inv(server, latency, Step(s, ttl, a))
  {
    if a.Fetch? && a.reply.response.Found? && a.reply.response.payload.Some? && Asks(s, ttl, a.key, a.force, a.now) {
      assert HeldShortlyBefore(server, latency, a.key, a.reply.response.payload.value, a.reply.stamped);
    }
  }

  lemma FrontOfRun(server: Server, latency: real, ttl: real, run: seq<Action>)
    requires run != []
    ensures var n := |run| - 1;
            && (HonestRun(server, latency, ttl, run) ==>
                  HonestRun(server, latency, ttl, run[..n]) && Honest(server, latency, ttl, Run(ttl, run[..n]), run[n]))
            && (Chronological(ttl, run) ==> Chronological(ttl, run[..n]))
  {
    var n := |run| - 1;
    assert forall i | 0 <= i < n :: run[..n][..i] == run[..i] && run[..n][i] == run[i];
  }

  lemma {:induction false} RunKeepsInv(server: Server, latency: real, ttl: real, run: seq<Action>)
    requires HonestRun(server, latency, ttl, run)
    ensures Inv(server, latency, Run(ttl, run))
  {
    if run != [] {
      var n := |run| - 1;
      FrontOfRun(server, latency, ttl, run);
      RunKeepsInv(server, latency, ttl, run[..n]);
      StepKeepsInv(server, latency, ttl, Run(ttl, run[..n]), run[n]);
    }
  }

  /** Entries carry stamps of earlier answers. */
  lemma {:induction false} StampsArePast(ttl: real, run: seq<Action>, now: real)
    requires forall i | 0 <= i < |run| && run[i].Fetch? :: AnswerTime(Run(ttl, run[..i]), ttl, run[i]) <= now
    ensures StampedBy(Run(ttl, run), now)
  {
    if run != [] {
      var n := |run| - 1;
      var front, a := run[..n], run[n];
      assert forall i | 0 <= i < n :: front[..i] == run[..i] && front[i] == run[i];
      StampsArePast(ttl, front, now);
      assert a.Fetch? ==> AnswerTime(Run(ttl, front), ttl, a) <= now;
    }
  }

  /** After any run under a monotone clock, a document returned by a fetch was the server's document at an instant
      no later than the answer, and earlier by at most the time to live plus one reply latency. */
  lemma ReturnedDocIsRecent(server: Server, latency: real, ttl: real, run: seq<Action>, a: Action)
    requires a.Fetch? && HonestRun(server, latency, ttl, run + [a]) && Chronological(ttl, run + [a])
    ensures var s := Run(ttl, run);
            match Fetched(s, ttl, a.key, a.force, a.now, a.reply).1
            case Returned(Some(p)) =>
              exists t: real :: t <= AnswerTime(s, ttl, a) <= t + (if ttl < 0.0 then 0.0 else ttl) + latency
                                && server(a.key, t) == Doc(p)
            case _ => true
  {
    RunUpTo(server, latency, ttl, run, a);
    RunKeepsInv(server, latency, ttl, run);
    StampsArePast(ttl, run, a.now);
    hide Run, HonestRun, Chronological;
    StateReturnsRecent(server, latency, ttl, Run(ttl, run), a);
  }

  lemma RunUpTo(server: Server, latency: real, ttl: real, run: seq<Action>, a: Action)
    requires a.Fetch? && HonestRun(server, latency, ttl, run + [a]) && Chronological(ttl, run + [a])
    ensures HonestRun(server, latency, ttl, run) && Honest(server, latency, ttl, Run(ttl, run), a)
    ensures forall i | 0 <= i < |run| && run[i].Fetch? :: AnswerTime(Run(ttl, run[..i]), ttl, run[i]) <= a.now
  {
    hide Run, Honest, AnswerTime;
    var all := run + [a];
    assert all[..|run|] == run && all[|run|] == a;
    assert forall i | 0 <= i < |run| :: all[..i] == run[..i] && all[i] == run[i];
  }

  /** From a state whose entries were held shortly before their stamps, and stamped by now. */
  lemma StateReturnsRecent(server: Server, latency: real, ttl: real, s: CacheState, a: Action)
    requires a.Fetch? && Inv(server, latency, s) && StampedBy(s, a.now) && Honest(server, latency, ttl, s, a)
    ensures match Fetched(s, ttl, a.key, a.force, a.now, a.reply).1
            case Returned(Some(p)) =>
              exists t: real :: t <= AnswerTime(s, ttl, a) <= t + (if ttl < 0.0 then 0.0 else ttl) + latency
                                && server(a.key, t) == Doc(p)
            case _ => true
  {
    hide HeldShortlyBefore;
    var r := Fetched(s, ttl, a.key, a.force, a.now, a.reply).1;
    if r.Returned? && r.payload.Some? {
      if Asks(s, ttl, a.key, a.force, a.now) {
        assert server(a.key, a.reply.answered) == Doc(r.payload.value);
      } else {
        FromCache(server, latency, ttl, s, a);
      }
    }
  }

  lemma FromCache(server: Server, latency: real, ttl: real, s: CacheState, a: Action)
    requires a.Fetch? && !Asks(s, ttl, a.key, a.force, a.now) && Inv(server, latency, s) && StampedBy(s, a.now)
    requires a.key in s.docs && s.docs[a.key].payload.Some? && Alive(ttl, s.docs[a.key].createdAt, a.now)
    ensures exists t: real :: t <= a.now <= t + (if ttl < 0.0 then 0.0 else ttl) + latency
                              && server(a.key, t) == Doc(s.docs[a.key].payload.value)
  {
    var c, p := s.docs[a.key].createdAt, s.docs[a.key].payload.value;
    assert HeldShortlyBefore(server, latency, a.key, p, c);
    var t: real :| t <= c && c - t <= latency && server(a.key, t) == Doc(p);
    assert t <= a.now <= t + (if ttl < 0.0 then 0.0 else ttl) + latency;
  }

  /** What the server replies makes no difference exactly when the fetch is not forced and the key has a live entry
      or is known to be missing; a live entry is the answer. */
  lemma ServerIsNotAsked(s: CacheState, ttl: real, key: string, force: bool, now: real)
    ensures (forall r, r' :: Fetched(s, ttl, key, force, now, r) == Fetched(s, ttl, key, force, now, r'))
            <==> !force && ((key in s.docs && now - s.docs[key].createdAt <= ttl) || key in s.missing)
    ensures !force && key in s.docs && now - s.docs[key].createdAt <= ttl ==>
              forall r :: Fetched(s, ttl, key, force, now, r) == (s, Returned(s.docs[key].payload))
  {
    var failed, missing := Reply(ERROR_STATUS, now, now), Reply(NOT_FOUND, now, now);
    if force || !((key in s.docs && now - s.docs[key].createdAt <= ttl) || key in s.missing) {
      assert Fetched(s, ttl, key, force, now, failed) != Fetched(s, ttl, key, force, now, missing);
    }
  }

  /** The action leaves a live entry of the key alone: it is an unforced fetch within the time to live, concerns
      another key, or forgets another module. */
  predicate Spares(ttl: real, key: string, createdAt: real, a: Action) {
    match a
    case Fetch(k, force, now, _) => k != key || (!force && now - createdAt <= ttl)
    case Invalidate(m) => m.Some? && "llm_module_" + SafeName(m.value) != key
  }

  /** A stored document answers every unforced fetch within its time to live, through any actions that spare it. */
  lemma {:induction false} StoredDocAnswers(ttl: real, run: seq<Action>, key: string, entry: Cached,
                                          rest: seq<Action>, now: real, reply: Reply)
    requires key in Run(ttl, run).docs && Run(ttl, run).docs[key] == entry
    requires forall a | a in rest :: Spares(ttl, key, entry.createdAt, a)
    requires now - entry.createdAt <= ttl
    ensures var s := Run(ttl, run + rest);
            && key in s.docs && s.docs[key] == entry
            && Fetched(s, ttl, key, false, now, reply) == (s, Returned(entry.payload))
  {
    if rest == [] {
      assert run + rest == run;
    } else {
      var n := |rest| - 1;
      assert rest[n] in rest;
      StoredDocAnswers(ttl, run, key, entry, rest[..n], now, reply);
      assert (run + rest)[..|run + rest| - 1] == run + rest[..n];
    }
  }

  /** Forgetting a module forgets the one key of its document; without a module everything is forgotten. */
  lemma InvalidatesExactly(s: CacheState, m: Option<string>, key: string)
    ensures var s' := Invalidated(s, m);
            var kept := m.Some? && key != "llm_module_" + SafeName(m.value);
            && (key in s'.docs <==> key in s.docs && kept) && (key in s'.docs ==> s'.docs[key] == s.docs[key])
            && (key in s'.missing <==> key in s.missing && kept)
  {
  }

  /** In a key the dots of a module path are two underscores each. */
  lemma SafeNameOfParts(parts: seq<string>)
    requires forall i | 0 <= i < |parts| :: '.' !in parts[i] && '/' !in parts[i]
    ensures SafeName(Join(".", parts)) == Join("__", parts)
    ensures SafeName(Join("/", parts)) == Join("_", parts)
  {
    assert SafeName(".") == "__" + SafeName("") && SafeName("/") == "_" + SafeName("");
    SafeNameOfJoined(".", "__", parts);
    SafeNameOfJoined("/", "_", parts);
  }

  lemma {:induction false} SafeNameOfJoined(sep: string, safe: string, parts: seq<string>)
    requires SafeName(sep) == safe && forall i | 0 <= i < |parts| :: '.' !in parts[i] && '/' !in parts[i]
    ensures SafeName(Join(sep, parts)) == Join(safe, parts)
  {
    if parts == [] { return; }
    hide SafeName;
    SafeNameKeeps(parts[0]);
    if |parts| > 1 {
      SafeNameOfJoined(sep, safe, parts[1..]);
      SafeNameOfThree(parts[0], sep, Join(sep, parts[1..]));
    }
  }

  lemma SafeNameOfThree(a: string, sep: string, b: string)
    ensures SafeName(a + sep + b) == SafeName(a) + SafeName(sep) + SafeName(b)
  {
    SafeNameConcat(a + sep, b);
    SafeNameConcat(a, sep);
  }

  lemma {:induction false} SafeNameKeeps(s: string)
    requires '.' !in s && '/' !in s
    ensures SafeName(s) == s
  {
    if s != "" {
      assert s[0] in s && s == [s[0]] + s[1..];
      SafeNameKeeps(s[1..]);
    }
  }

  lemma {:induction false} SafeNameConcat(a: string, b: string)
    ensures SafeName(a + b) == SafeName(a) + SafeName(b)
  {
    if a == "" {
      assert a + b == b;
    } else {
      assert (a + b)[0] == a[0] && (a + b)[1..] == a[1..] + b;
      SafeNameConcat(a[1..], b);
    }
  }

  /** A document found missing stays missing for unforced fetches, however old the finding and whatever the
      server holds by now. */
  lemma MissingIsSticky(server: Server, latency: real, ttl: real, run: seq<Action>, key: string, now: real, reply: Reply)
    requires HonestRun(server, latency, ttl, run)
    requires key in Run(ttl, run).missing
    ensures Fetched(Run(ttl, run), ttl, key, false, now, reply) == (Run(ttl, run), Returned(None))
  {
    RunKeepsInv(server, latency, ttl, run);
  }

  ghost predicate MissingIffNone(s: CacheState) {
    forall k :: k in s.missing <==> k in s.docs && s.docs[k].payload == None
  }

  /** One step keeps "missing exactly when the cached payload is None", unless the server sends a JSON null. */
  lemma StepKeepsMissingIffNone(ttl: real, s: CacheState, a: Action)
    requires MissingIffNone(s)
    ensures MissingIffNone(Step(s, ttl, a)) <==>
            !(a.Fetch? && Asks(s, ttl, a.key, a.force, a.now) && a.reply.response == Found(None))
  {
    if a.Fetch? && Asks(s, ttl, a.key, a.force, a.now) && a.reply.response == Found(None) {
      var s' := Step(s, ttl, a);
      assert a.key !in s'.missing && a.key in s'.docs && s'.docs[a.key].payload == None;
    }
  }

  /** With a server that never sends null, a key is in the missing set exactly when its cached payload is None. */
  lemma {:induction false} RunKeepsMissingIffNone(ttl: real, run: seq<Action>)
    requires forall i | 0 <= i < |run| && run[i].Fetch? :: run[i].reply.response != Found(None)
    ensures MissingIffNone(Run(ttl, run))
  {
    if run != [] {
      RunKeepsMissingIffNone(ttl, run[..|run| - 1]);
      StepKeepsMissingIffNone(ttl, Run(ttl, run[..|run| - 1]), run[|run| - 1]);
    }
  }
}
