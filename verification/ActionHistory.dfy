/**
 The operator's bounded action log. `finish` searches backwards for the newest open entry of an action and
 overwrites it in place. The log should be the end of the log it would be without a bound.
 */
module ActionHistory {
  import opened Options

  datatype Entry = Entry(actionKey: string, labelText: string, state: string, message: string, startedAt: string,
                         finishedAt: Option<string>)

  /** Python's `given or now`: an absent or empty timestamp means the current time. */
  function TimestampOr(given: Option<string>, now: string): string {
    if given.Some? && given.value != "" then given.value else now
  }

  predicate IsOpen(e: Entry, actionKey: string) {
    e.actionKey == actionKey && e.state == "running" && e.finishedAt == None
  }

  /** The newest open entry of the action, or -1. */
  function NewestOpen(entries: seq<Entry>, actionKey: string): (i: int)
    ensures -1 <= i < |entries|
    ensures i >= 0 ==> IsOpen(entries[i], actionKey)
    ensures forall j | i < j < |entries| :: !IsOpen(entries[j], actionKey)
  {
    if entries == [] then -1
    else if IsOpen(entries[|entries| - 1], actionKey) then |entries| - 1
    else NewestOpen(entries[..|entries| - 1], actionKey)
  }

  /** One call, with the clock it reads. */
  datatype Operation =
    | Record(entry: Entry)
    | Finish(actionKey: string, state: string, message: string, finishedAt: string)
    | Extend(entries: seq<Entry>)

  function Closed(e: Entry, op: Operation): Entry
    requires op.Finish?
  {
    Entry(e.actionKey, e.labelText, op.state, op.message, e.startedAt, Some(op.finishedAt))
  }

  /** What `finish` records when nothing is open. */
  function Unmatched(op: Operation): Entry
    requires op.Finish?
  {
    Entry(op.actionKey, op.actionKey, op.state, op.message, op.finishedAt, Some(op.finishedAt))
  }

  /** The operation without any bound. */
  function Apply(entries: seq<Entry>, op: Operation): seq<Entry> {
    match op
    case Record(e) => entries + [e]
    case Extend(es) => entries + es
    case Finish(key, _, _, _) =>
      var i := NewestOpen(entries, key);
      if i >= 0 then entries[i := Closed(entries[i], op)] else entries + [Unmatched(op)]
  }

  function Trimmed(entries: seq<Entry>, max: int): seq<Entry> {
    if max <= 0 then [] else if |entries| <= max then entries else entries[|entries| - max..]
  }

  /** The operation on the bounded log: an entry closed in place is not followed by a trim. */
  function ApplyBounded(entries: seq<Entry>, max: int, op: Operation): seq<Entry> {
    if op.Finish? && NewestOpen(entries, op.actionKey) >= 0 then Apply(entries, op) else Trimmed(Apply(entries, op), max)
  }

  class OperatorActionHistory {
    const maxEntries: int
    var entries: seq<Entry>

    constructor (maxEntries: int)
      ensures this.maxEntries == maxEntries && entries == []
    {
      this.maxEntries, entries := maxEntries, [];
    }

    method Trim()
      modifies this
      ensures entries == Trimmed(old(entries), maxEntries)
    {
      if maxEntries <= 0 {
        entries := [];
        return;
      }
      var overflow := |entries| - maxEntries;
      if overflow > 0 { entries := entries[overflow..]; }
    }

    method RecordEntry(actionKey: string, labelText: string, state: string, message: string,
                       startedAt: Option<string>, finishedAt: Option<string>, now: string)
      modifies this
      ensures entries == ApplyBounded(old(entries), maxEntries,
                Record(Entry(actionKey, labelText, state, message, TimestampOr(startedAt, now), finishedAt)))
    {
      entries := entries + [Entry(actionKey, labelText, state, message, TimestampOr(startedAt, now), finishedAt)];
      Trim();
    }

    method Start(actionKey: string, labelText: string, message: string, timestamp: Option<string>, now: string)
      modifies this
      ensures entries == ApplyBounded(old(entries), maxEntries,
                Record(Entry(actionKey, labelText, "running", message, TimestampOr(timestamp, now), None)))
    {
      RecordEntry(actionKey, labelText, "running", message, timestamp, None, now);
    }

    method FinishAction(actionKey: string, state: string, message: string, timestamp: Option<string>, now: string)
      requires now != ""
      modifies this
      ensures entries == ApplyBounded(old(entries), maxEntries, Finish(actionKey, state, message, TimestampOr(timestamp, now)))
    {
      var finishedAt := TimestampOr(timestamp, now);
      var index := |entries| - 1;
      while index >= 0
        invariant -1 <= index < |entries| && entries == old(entries)
        invariant NewestOpen(entries, actionKey) == NewestOpen(entries[..index + 1], actionKey)
      {
        assert entries[..index + 1][..index] == entries[..index];
        var entry := entries[index];
        if entry.actionKey == actionKey && entry.state == "running" && entry.finishedAt == None {
          entries := entries[index := Entry(entry.actionKey, entry.labelText, state, message, entry.startedAt, Some(finishedAt))];
          return;
        }
        index := index - 1;
      }
      RecordEntry(actionKey, actionKey, state, message, Some(finishedAt), Some(finishedAt), now);
    }

    method ExtendWith(more: seq<Entry>)
      modifies this
      ensures entries == ApplyBounded(old(entries), maxEntries, Extend(more))
    {
      entries := entries + more;
      Trim();
    }

    /** The newest entries, newest first. */
    method Latest(limit: int) returns (r: seq<Entry>)
      ensures |r| == if limit <= 0 then 0 else if limit <= |entries| then limit else |entries|
      ensures forall i | 0 <= i < |r| :: r[i] == entries[|entries| - 1 - i]
    {
      if limit <= 0 { return []; }
      var count := if limit <= |entries| then limit else |entries|;
      r := seq(count, i requires 0 <= i < count && count <= |entries| reads this => entries[|entries| - 1 - i]);
    }
  }

  /** A time is the given one unless that is missing or empty, and never empty. */
  lemma TimestampExactly(given: Option<string>, now: string)
    requires now != ""
    ensures TimestampOr(given, now) != "" && TimestampOr(None, now) == TimestampOr(Some(""), now) == now
    ensures given.Some? && given.value != "" ==> TimestampOr(given, now) == given.value
  {
  }

  // ---------------------------------------------------------------- what a finish leaves

  /** The position of the newest entry of the action that is running and has no finish time. */
  ghost predicate Newest(entries: seq<Entry>, key: string, i: int) {
    && 0 <= i < |entries|
    && entries[i].actionKey == key && entries[i].state == "running" && entries[i].finishedAt == None
    && forall j | i < j < |entries| :: !(entries[j].actionKey == key && entries[j].state == "running" && entries[j].finishedAt == None)
  }

  /** A finish closes the newest open entry of its action where it stands, with its label and its start; without
      one it is logged at the end as an action that started when it finished, under its own key. */
  lemma FinishExactly(entries: seq<Entry>, key: string, state: string, message: string, at: string)
    ensures var after := Apply(entries, Finish(key, state, message, at));
            && (forall i | Newest(entries, key, i) ::
                  && |after| == |entries| && (forall j | 0 <= j < |entries| && j != i :: after[j] == entries[j])
                  && after[i] == Entry(key, entries[i].labelText, state, message, entries[i].startedAt, Some(at)))
            && ((forall i | 0 <= i < |entries| :: !Newest(entries, key, i)) ==>
                  after == entries + [Entry(key, key, state, message, at, Some(at))])
  {
    var i := NewestOpen(entries, key);
    assert i >= 0 ==> Newest(entries, key, i);
    hide NewestOpen;
    forall k | Newest(entries, key, k) ensures k == i { assert IsOpen(entries[k], key); }
  }

  /** The operation neither opens nor closes an entry of the action. */
  predicate LeavesAlone(op: Operation, key: string) {
    match op
    case Record(e) => !IsOpen(e, key)
    case Extend(es) => forall i | 0 <= i < |es| :: !IsOpen(es[i], key)
    case Finish(k, _, _, _) => k != key
  }

  /** Whatever else is logged meanwhile, finishing a started action closes the entry of its start. */
  lemma StartThenFinish(run: seq<Operation>, start: Entry, between: seq<Operation>, op: Operation)
    requires op.Finish? && IsOpen(start, op.actionKey) && forall o | o in between :: LeavesAlone(o, op.actionKey)
    ensures var n, before := |Unbounded(run)|, Unbounded(run + [Record(start)] + between);
            && n < |before| && before[n] == start
            && Apply(before, op) ==
               before[n := Entry(op.actionKey, start.labelText, op.state, op.message, start.startedAt, Some(op.finishedAt))]
  {
    StartStaysOpen(run, start, between, op.actionKey);
  }

  lemma {:induction false} StartStaysOpen(run: seq<Operation>, start: Entry, between: seq<Operation>, key: string)
    requires IsOpen(start, key) && forall o | o in between :: LeavesAlone(o, key)
    ensures var n, log := |Unbounded(run)|, Unbounded(run + [Record(start)] + between);
            n < |log| && log[n] == start && NewestOpen(log, key) == n
  {
    hide Unbounded, Apply, NewestOpen, IsOpen;
    var started := run + [Record(start)];
    if between == [] {
      assert started + [] == started;
      UnboundedSnoc(run, Record(start));
      Started(Unbounded(run), start, key);
    } else {
      var m := |between| - 1;
      assert between[m] in between;
      StartStaysOpen(run, start, between[..m], key);
      UnboundedSnoc(started + between[..m], between[m]);
      assert started + between == started + between[..m] + [between[m]];
      OneMoreOperation(Unbounded(started + between[..m]), between[m], key);
    }
  }

  lemma UnboundedSnoc(run: seq<Operation>, op: Operation)
    ensures Unbounded(run + [op]) == Apply(Unbounded(run), op)
  {
    assert (run + [op])[..|run|] == run;
  }

  lemma Started(log: seq<Entry>, start: Entry, key: string)
    requires IsOpen(start, key)
    ensures Apply(log, Record(start)) == log + [start] && NewestOpen(log + [start], key) == |log|
  {
  }

  lemma OneMoreOperation(log: seq<Entry>, op: Operation, key: string)
    requires LeavesAlone(op, key) && NewestOpen(log, key) >= 0
    ensures var after, n := Apply(log, op), NewestOpen(log, key);
            n < |after| && after[n] == log[n] && NewestOpen(after, key) == n
  {
    var after, n := Apply(log, op), NewestOpen(log, key);
    hide NewestOpen;
    assert forall j | 0 <= j < |log| && !IsOpen(log[j], key) :: !IsOpen(after[j], key);
    assert forall j | |log| <= j < |after| :: !IsOpen(after[j], key);
    var k := NewestOpen(after, key);
    assert IsOpen(after[n], key);
  }

  // ---------------------------------------------------------------- the bounded log against the unbounded one

  /** The entry a finish would close is no longer in the bounded log. */
  predicate FinishesEvicted(unbounded: seq<Entry>, max: int, op: Operation) {
    && op.Finish?
    && 0 <= NewestOpen(unbounded, op.actionKey) < |unbounded| - |Trimmed(unbounded, max)|
  }

  /** The backward search finds the same entry in the end of a log, or nothing if that entry is cut off. */
  lemma {:induction false} NewestOpenInSuffix(entries: seq<Entry>, cut: nat, actionKey: string)
    requires cut <= |entries|
    ensures var i := NewestOpen(entries, actionKey);
            NewestOpen(entries[cut..], actionKey) == if i >= cut then i - cut else -1
  {
    if cut < |entries| {
      var n := |entries| - 1;
      assert entries[cut..][..n - cut] == entries[..n][cut..];
      if !IsOpen(entries[n], actionKey) { NewestOpenInSuffix(entries[..n], cut, actionKey); }
    }
  }

  lemma ClosingKept(unbounded: seq<Entry>, max: int, i: nat, e: Entry)
    requires |unbounded| - |Trimmed(unbounded, max)| <= i < |unbounded|
    ensures Trimmed(unbounded[i := e], max) ==
            Trimmed(unbounded, max)[i - (|unbounded| - |Trimmed(unbounded, max)|) := e]
  {
  }

  lemma ClosingEvicted(unbounded: seq<Entry>, max: int, i: nat, e: Entry, recorded: Entry)
    requires i < |unbounded| - |Trimmed(unbounded, max)|
    ensures Trimmed(unbounded[i := e], max) == Trimmed(unbounded, max)
    ensures Trimmed(Trimmed(unbounded, max) + [recorded], max) == Trimmed(unbounded, max) <==>
            max <= 0 || forall k | k in Trimmed(unbounded, max) :: k == recorded
  {
    var bounded := Trimmed(unbounded, max);
    if max > 0 {
      assert |bounded| == max;
      assert Trimmed(bounded + [recorded], max) == (bounded + [recorded])[1..];
      ShiftedIsSame(bounded, recorded);
    }
  }

  /** One operation keeps the bounded log the end of the unbounded one exactly when it does not finish an evicted
      entry. The exceptions are a bound that keeps nothing, and a log full of copies of the entry that is recorded
      instead. */
  lemma StepKeepsSuffixExactly(unbounded: seq<Entry>, max: int, op: Operation)
    ensures ApplyBounded(Trimmed(unbounded, max), max, op) == Trimmed(Apply(unbounded, op), max) <==>
            !FinishesEvicted(unbounded, max, op) || max <= 0
            || forall e | e in Trimmed(unbounded, max) :: e == Unmatched(op)
  {
    hide NewestOpen, Closed, Unmatched, IsOpen;
    match op
    case Record(e) => AppendThenTrim(unbounded, [e], max);
    case Extend(es) => AppendThenTrim(unbounded, es, max);
    case Finish(key, _, _, _) =>
      var bounded := Trimmed(unbounded, max);
      var cut := |unbounded| - |bounded|;
      var i := NewestOpen(unbounded, key);
      assert bounded == unbounded[cut..];
      NewestOpenInSuffix(unbounded, cut, key);
      if i < 0 {
        AppendThenTrim(unbounded, [Unmatched(op)], max);
      } else if i >= cut {
        ClosingKept(unbounded, max, i, Closed(unbounded[i], op));
      } else {
        ClosingEvicted(unbounded, max, i, Closed(unbounded[i], op), Unmatched(op));
      }
  }

  lemma AppendThenTrim(entries: seq<Entry>, more: seq<Entry>, max: int)
    ensures Trimmed(Trimmed(entries, max) + more, max) == Trimmed(entries + more, max)
  {
  }

  /** Appending an entry and dropping the first changes nothing only if every entry is that entry. */
  lemma ShiftedIsSame(s: seq<Entry>, x: Entry)
    requires s != []
    ensures (s + [x])[1..] == s <==> forall e | e in s :: e == x
  {
    var t := (s + [x])[1..];
    if t == s {
      ConstantBackwards(s, x, |s|);
    }
    if forall e | e in s :: e == x {
      forall i | 0 <= i < |s| ensures t[i] == s[i] { assert s[i] in s && (i + 1 < |s| ==> s[i + 1] in s); }
    }
  }

  lemma {:induction false} ConstantBackwards(s: seq<Entry>, x: Entry, k: nat)
    requires (s + [x])[1..] == s && k <= |s|
    ensures forall i | |s| - k <= i < |s| :: s[i] == x
  {
    if k > 0 {
      ConstantBackwards(s, x, k - 1);
      var i := |s| - k;
      assert s[i] == (s + [x])[1..][i] == (s + [x])[i + 1];
    }
  }

  function Unbounded(run: seq<Operation>): seq<Entry> {
    if run == [] then [] else Apply(Unbounded(run[..|run| - 1]), run[|run| - 1])
  }

  function Bounded(run: seq<Operation>, max: int): seq<Entry> {
    if run == [] then [] else ApplyBounded(Bounded(run[..|run| - 1], max), max, run[|run| - 1])
  }

  /** No finish in the run targets an entry that the bound has already evicted. */
  ghost predicate NoEvictedFinish(run: seq<Operation>, max: int) {
    forall k | 0 <= k < |run| :: !FinishesEvicted(Unbounded(run[..k]), max, run[k])
  }

  /** After every such run the bounded log is the last `max` entries of the unbounded one. */
  lemma {:induction false} BoundedIsSuffix(run: seq<Operation>, max: int)
    requires NoEvictedFinish(run, max)
    ensures Bounded(run, max) == Trimmed(Unbounded(run), max)
  {
    if run != [] {
      var n := |run| - 1;
      forall k | 0 <= k < n ensures !FinishesEvicted(Unbounded(run[..n][..k]), max, run[..n][k]) {
        assert run[..n][..k] == run[..k];
      }
      BoundedIsSuffix(run[..n], max);
      StepKeepsSuffixExactly(Unbounded(run[..n]), max, run[n]);
    }
  }

  /** One operation parts the two logs: it finishes an evicted entry, and the entry recorded instead shows. */
  ghost predicate Diverges(unbounded: seq<Entry>, max: int, op: Operation) {
    FinishesEvicted(unbounded, max, op) && max > 0 && exists e | e in Trimmed(unbounded, max) :: e != Unmatched(op)
  }

  /** After `k` operations the bounded log is the end of the unbounded one. */
  ghost predicate Agrees(run: seq<Operation>, max: int, k: int)
    requires 0 <= k <= |run|
  {
    Bounded(run[..k], max) == Trimmed(Unbounded(run[..k]), max)
  }

  ghost predicate Parts(run: seq<Operation>, max: int, k: int)
    requires 0 <= k < |run|
  {
    Diverges(Unbounded(run[..k]), max, run[k])
  }

  /** The bounded log is the end of the unbounded one in every state of a run if and only if no operation of the
      run parts them. */
  lemma BoundedIsSuffixExactly(run: seq<Operation>, max: int)
    ensures (forall k | 0 <= k <= |run| :: Agrees(run, max, k)) <==> forall k | 0 <= k < |run| :: !Parts(run, max, k)
  {
    if forall k | 0 <= k <= |run| :: Agrees(run, max, k) {
      hide Agrees, Parts;
      forall k | 0 <= k < |run| ensures !Parts(run, max, k) {
        assert Agrees(run, max, k) && Agrees(run, max, k + 1);
        StepPartsExactly(run, max, k);
      }
    }
    hide *;
    if forall k | 0 <= k < |run| :: !Parts(run, max, k) { AgreesSoFar(run, max, |run|); }
  }

  lemma StepPartsExactly(run: seq<Operation>, max: int, k: nat)
    requires k < |run| && Agrees(run, max, k)
    ensures Agrees(run, max, k + 1) <==> !Parts(run, max, k)
  {
    assert run[..k + 1][..k] == run[..k];
    StepKeepsSuffixExactly(Unbounded(run[..k]), max, run[k]);
  }

  lemma {:induction false} AgreesSoFar(run: seq<Operation>, max: int, n: nat)
    requires n <= |run| && forall k | 0 <= k < |run| :: !Parts(run, max, k)
    ensures forall k | 0 <= k <= n :: Agrees(run, max, k)
  {
    hide *;
    if n == 0 {
      AgreesAtStart(run, max);
    } else {
      AgreesSoFar(run, max, n - 1);
      assert Agrees(run, max, n - 1) && !Parts(run, max, n - 1);
      StepPartsExactly(run, max, n - 1);
    }
  }

  lemma AgreesAtStart(run: seq<Operation>, max: int)
    ensures Agrees(run, max, 0)
  {
    assert run[..0] == [];
  }

  /** Finishing an evicted entry records a second one and pushes out a kept one. */
  lemma EvictedFinishDiverges(a: Entry, b: Entry, op: Operation)
    requires IsOpen(a, "a") && !IsOpen(b, "a") && op == Finish("a", "done", "m", "t") && b != Unmatched(op)
    ensures FinishesEvicted([a, b], 1, op)
    ensures ApplyBounded(Trimmed([a, b], 1), 1, op) == [Unmatched(op)] && Trimmed(Apply([a, b], op), 1) == [b]
  {
    assert [a, b][..1] == [a];
    assert [b][..0] == [];
    assert ([b] + [Unmatched(op)])[1..] == [Unmatched(op)];
  }
}
