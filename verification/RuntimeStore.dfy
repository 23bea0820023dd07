/**
 The table of runtime events with retention: after every append, rows older than the retention period are
 deleted, then the oldest rows beyond the cap. Timestamps are points of a total order.
 */
module RuntimeStore {
  import opened PyText

  // ---------------------------------------------------------------- retention on one project's events

  datatype Event = Event(createdAt: int, json: string)

  function Fresh(s: seq<Event>, cutoff: int): seq<Event> {
    if s == [] then []
    else
      var last := s[|s| - 1];
      Fresh(s[..|s| - 1], cutoff) + if last.createdAt < cutoff then [] else [last]
  }

  function KeepLast<T>(s: seq<T>, max: int): seq<T> { s[Overflowing(|s|, max)..] }

  function Overflowing(n: nat, max: int): nat {
    if n <= max then 0 else if max <= 0 then n else n - max
  }

  /** Retention applied at once: age first, then the cap. */
  function Retain(s: seq<Event>, cutoff: int, max: int): seq<Event> { KeepLast(Fresh(s, cutoff), max) }

  // ---------------------------------------------------------------- the table

  datatype Row = Row(id: nat, project: string, event: Event)

  datatype RuntimeEvent = RuntimeEvent(project: string, timestamp: int, json: string)

  function Log(rows: seq<Row>, project: string): seq<Event> {
    if rows == [] then []
    else
      var last := rows[|rows| - 1];
      Log(rows[..|rows| - 1], project) + if last.project == project then [last.event] else []
  }

  /** `DELETE ... WHERE project_name=? AND created_at < ?` */
  function WithoutAged(rows: seq<Row>, project: string, cutoff: int): seq<Row> {
    if rows == [] then []
    else
      var last := rows[|rows| - 1];
      WithoutAged(rows[..|rows| - 1], project, cutoff)
      + if last.project == project && last.event.createdAt < cutoff then [] else [last]
  }

  /** `DELETE ... WHERE id IN (SELECT id ... WHERE project_name=? ORDER BY id ASC LIMIT ?)`; rows are in id order. */
  function WithoutOldest(rows: seq<Row>, project: string, count: nat): seq<Row> {
    if rows == [] || count == 0 then rows
    else if rows[0].project == project then WithoutOldest(rows[1..], project, count - 1)
    else [rows[0]] + WithoutOldest(rows[1..], project, count)
  }

  lemma {:induction false} LogAppend(rows: seq<Row>, more: seq<Row>, project: string)
    ensures Log(rows + more, project) == Log(rows, project) + Log(more, project)
  {
    if more == [] {
      assert rows + more == rows;
    } else {
      assert (rows + more)[..|rows + more| - 1] == rows + more[..|more| - 1];
      LogAppend(rows, more[..|more| - 1], project);
    }
  }

  lemma LogSnoc(rows: seq<Row>, r: Row, project: string)
    ensures Log(rows + [r], project) == Log(rows, project) + if r.project == project then [r.event] else []
  {
    assert (rows + [r])[..|rows|] == rows;
  }

  lemma FreshSnoc(s: seq<Event>, e: Event, cutoff: int)
    ensures Fresh(s + [e], cutoff) == Fresh(s, cutoff) + if e.createdAt < cutoff then [] else [e]
  {
    assert (s + [e])[..|s|] == s;
  }

  lemma {:induction false} LogWithoutAged(rows: seq<Row>, project: string, cutoff: int, other: string)
    ensures Log(WithoutAged(rows, project, cutoff), other) ==
            if other == project then Fresh(Log(rows, project), cutoff) else Log(rows, other)
  {
    if rows != [] {
      var front, last := rows[..|rows| - 1], rows[|rows| - 1];
      LogWithoutAged(front, project, cutoff, other);
      LogSnoc(WithoutAged(front, project, cutoff), last, other);
      FreshSnoc(Log(front, project), last.event, cutoff);
      assert WithoutAged(front, project, cutoff) + [] == WithoutAged(front, project, cutoff);
      assert Log(front, other) + [] == Log(front, other);
    }
  }

  lemma LogHead(rows: seq<Row>, project: string)
    requires rows != []
    ensures Log(rows, project) == (if rows[0].project == project then [rows[0].event] else []) + Log(rows[1..], project)
  {
    LogAppend([rows[0]], rows[1..], project);
    assert rows == [rows[0]] + rows[1..];
    assert [rows[0]][..0] == [];
    assert Log([rows[0]], project) == if rows[0].project == project then [rows[0].event] else [];
  }

  lemma WithoutOldestHead(rows: seq<Row>, project: string, count: nat)
    requires rows != [] && count > 0
    ensures WithoutOldest(rows, project, count) ==
            if rows[0].project == project then WithoutOldest(rows[1..], project, count - 1)
            else [rows[0]] + WithoutOldest(rows[1..], project, count)
  {
  }

  lemma {:induction false} LogWithoutOldest(rows: seq<Row>, project: string, count: nat, other: string)
    requires count <= |Log(rows, project)|
    ensures Log(WithoutOldest(rows, project, count), other) ==
            if other == project then Log(rows, project)[count..] else Log(rows, other)
  {
    if rows == [] || count == 0 { return; }
    WithoutOldestHead(rows, project, count);
    hide Log, WithoutOldest;
    LogHead(rows, project);
    LogHead(rows, other);
    if rows[0].project == project {
      LogWithoutOldest(rows[1..], project, count - 1, other);
      DropHead(rows[0].event, Log(rows[1..], project), count);
    } else {
      LogWithoutOldest(rows[1..], project, count, other);
      LogCons(rows[0], WithoutOldest(rows[1..], project, count), other);
    }
  }

  lemma LogCons(r: Row, rest: seq<Row>, project: string)
    ensures Log([r] + rest, project) == (if r.project == project then [r.event] else []) + Log(rest, project)
  {
    LogHead([r] + rest, project);
    assert ([r] + rest)[1..] == rest;
  }

  lemma DropHead<T>(x: T, s: seq<T>, k: nat)
    requires 0 < k <= |s| + 1
    ensures ([x] + s)[k..] == s[k - 1..]
  {
  }

  /** Rows are kept in the order of their identifiers. */
  ghost predicate InIdOrder(rows: seq<Row>, next: nat) {
    && (forall i, j | 0 <= i < j < |rows| :: rows[i].id < rows[j].id)
    && (forall i | 0 <= i < |rows| :: rows[i].id < next)
  }

  lemma {:induction false} WithoutAgedInOrder(rows: seq<Row>, project: string, cutoff: int, next: nat)
    requires InIdOrder(rows, next)
    ensures InIdOrder(WithoutAged(rows, project, cutoff), next)
    ensures forall r | r in WithoutAged(rows, project, cutoff) :: r in rows
  {
    if rows != [] {
      var n := |rows| - 1;
      WithoutAgedInOrder(rows[..n], project, cutoff, next);
      var front := WithoutAged(rows[..n], project, cutoff);
      forall i | 0 <= i < |front| ensures front[i].id < rows[n].id {
        assert front[i] in rows[..n];
      }
    }
  }

  lemma {:induction false} WithoutOldestInOrder(rows: seq<Row>, project: string, count: nat, next: nat)
    requires InIdOrder(rows, next)
    ensures InIdOrder(WithoutOldest(rows, project, count), next)
    ensures forall r | r in WithoutOldest(rows, project, count) :: r in rows
  {
    if rows != [] && count != 0 {
      if rows[0].project == project {
        WithoutOldestInOrder(rows[1..], project, count - 1, next);
      } else {
        WithoutOldestInOrder(rows[1..], project, count, next);
        var rest := WithoutOldest(rows[1..], project, count);
        forall i | 0 <= i < |rest| ensures rows[0].id < rest[i].id {
          assert rest[i] in rows[1..];
        }
      }
    }
  }

  /** Both deletions. */
  function Compacted(rows: seq<Row>, project: string, cutoff: int, max: int): seq<Row> {
    var aged := WithoutAged(rows, project, cutoff);
    WithoutOldest(aged, project, Overflowing(|Log(aged, project)|, max))
  }

  lemma CompactedInOrder(rows: seq<Row>, project: string, cutoff: int, max: int, next: nat)
    requires InIdOrder(rows, next)
    ensures InIdOrder(Compacted(rows, project, cutoff, max), next)
  {
    WithoutAgedInOrder(rows, project, cutoff, next);
    var aged := WithoutAged(rows, project, cutoff);
    WithoutOldestInOrder(aged, project, Overflowing(|Log(aged, project)|, max), next);
  }

  lemma CompactedLog(rows: seq<Row>, project: string, cutoff: int, max: int, p: string)
    ensures Log(Compacted(rows, project, cutoff, max), p) ==
            if p == project then Retain(Log(rows, p), cutoff, max) else Log(rows, p)
  {
    hide Log, WithoutAged, WithoutOldest, Fresh;
    var aged := WithoutAged(rows, project, cutoff);
    LogWithoutAged(rows, project, cutoff, project);
    LogWithoutAged(rows, project, cutoff, p);
    LogWithoutOldest(aged, project, Overflowing(|Log(aged, project)|, max), p);
  }

  /** The project's log has grown by the events, and no other log has changed. */
  ghost predicate GrownBy(before: seq<Row>, after: seq<Row>, project: string, events: seq<Event>) {
    forall p :: Log(after, p) == if p == project then Log(before, p) + events else Log(before, p)
  }

  lemma GrowsByOne(before: seq<Row>, rows: seq<Row>, events: seq<Event>, row: Row)
    requires GrownBy(before, rows, row.project, events)
    ensures GrownBy(before, rows + [row], row.project, events + [row.event])
  {
    forall p ensures Log(rows + [row], p) == if p == row.project then Log(before, p) + (events + [row.event]) else Log(before, p) {
      LogSnoc(rows, row, p);
    }
  }

  function Stamped(payload: seq<RuntimeEvent>): seq<Event> {
    seq(|payload|, i requires 0 <= i < |payload| => Event(payload[i].timestamp, payload[i].json))
  }

  datatype Append = Append(payload: seq<RuntimeEvent>, now: int)

  /** The rows of a project after one append. */
  function Appended(kept: seq<Event>, a: Append, p: string, retention: int, max: int): seq<Event> {
    if a.payload != [] && a.payload[0].project == p then Retain(kept + Stamped(a.payload), a.now - retention, max) else kept
  }

  /** What is kept after an append was kept before, or is an event of this payload as it was received; and the payload
      is filed under the project of its first event. */
  lemma KeptWasReceived(kept: seq<Event>, a: Append, p: string, retention: int, max: int, e: Event)
    requires e in Appended(kept, a, p, retention, max)
    ensures || e in kept
            || (a.payload != [] && a.payload[0].project == p
                && exists i | 0 <= i < |a.payload| :: e == Event(a.payload[i].timestamp, a.payload[i].json))
  {
    if a.payload != [] && a.payload[0].project == p {
      var all := kept + Stamped(a.payload);
      FreshMembers(all, a.now - retention);
      assert e in Fresh(all, a.now - retention) && e in all;
      if e !in kept {
        var i :| 0 <= i < |Stamped(a.payload)| && Stamped(a.payload)[i] == e;
        assert e == Event(a.payload[i].timestamp, a.payload[i].json);
      }
    }
  }

  lemma {:induction false} FreshMembers(s: seq<Event>, cutoff: int)
    ensures forall e :: e in Fresh(s, cutoff) <==> e in s && e.createdAt >= cutoff
  {
    if s != [] {
      var n := |s| - 1;
      FreshMembers(s[..n], cutoff);
      assert s == s[..n] + [s[n]];
    }
  }

  /** Retention keeps, in order, the last `max` of the events that are not older than the cutoff; `at` says where all
      of those are. */
  lemma RetainExactly(s: seq<Event>, cutoff: int, max: int) returns (at: seq<nat>)
    ensures forall i, j | 0 <= i < j < |at| :: at[i] < at[j]
    ensures forall i: nat :: i in at <==> i < |s| && s[i].createdAt >= cutoff
    ensures var r := Retain(s, cutoff, max);
            && |r| == (if |at| <= max then |at| else if max <= 0 then 0 else max)
            && forall k | 0 <= k < |r| :: at[|at| - |r| + k] < |s| && r[k] == s[at[|at| - |r| + k]]
  {
    at := FreshPositions(s, cutoff);
    hide Fresh;
    assert FreshAt(s, cutoff, at, Fresh(s, cutoff));
  }

  /** `at` is where the events that are fresh enough stand in the log. */
  ghost predicate FreshAt(s: seq<Event>, cutoff: int, at: seq<nat>, kept: seq<Event>) {
    && (forall i, j | 0 <= i < j < |at| :: at[i] < at[j])
    && (forall i: nat :: i in at <==> i < |s| && s[i].createdAt >= cutoff)
    && |kept| == |at| && forall k | 0 <= k < |at| :: at[k] < |s| && kept[k] == s[at[k]]
  }

  lemma {:induction false} FreshPositions(s: seq<Event>, cutoff: int) returns (at: seq<nat>)
    ensures FreshAt(s, cutoff, at, Fresh(s, cutoff))
  {
    if s == [] { return []; }
    hide Fresh, FreshAt;
    var n: nat := |s| - 1;
    var front := FreshPositions(s[..n], cutoff);
    FreshSnoc(s[..n], s[n], cutoff);
    assert s == s[..n] + [s[n]];
    OneEventMore(s[..n], cutoff, front, Fresh(s[..n], cutoff), s[n]);
    at := if s[n].createdAt < cutoff then front else front + [n];
  }

  lemma OneEventMore(s: seq<Event>, cutoff: int, at: seq<nat>, kept: seq<Event>, e: Event)
    requires FreshAt(s, cutoff, at, kept)
    ensures e.createdAt < cutoff ==> FreshAt(s + [e], cutoff, at, kept + [])
    ensures e.createdAt >= cutoff ==> FreshAt(s + [e], cutoff, at + [|s|], kept + [e])
  {
    var all, more := s + [e], at + [|s|];
    assert forall i: nat | i < |s| :: all[i] == s[i];
    forall i: nat ensures i in more <==> i in at || i == |s| {}
  }

  /** The project's log went through retention, and no other log has changed. */
  ghost predicate Retained(before: seq<Row>, after: seq<Row>, project: string, cutoff: int, max: int) {
    forall p :: Log(after, p) == if p == project then Retain(Log(before, p), cutoff, max) else Log(before, p)
  }

  lemma FiledThenCompacted(before: seq<Row>, filed: seq<Row>, after: seq<Row>, payload: seq<RuntimeEvent>, now: int,
                           retention: int, max: int)
    requires payload != [] && GrownBy(before, filed, payload[0].project, Stamped(payload))
    requires Retained(filed, after, payload[0].project, now - retention, max)
    ensures forall p :: Log(after, p) == Appended(Log(before, p), Append(payload, now), p, retention, max)
  {
    hide Log, Retain;
    forall p ensures Log(after, p) == Appended(Log(before, p), Append(payload, now), p, retention, max) {
      assert Log(filed, p) == if p == payload[0].project then Log(before, p) + Stamped(payload) else Log(before, p);
    }
  }

  class AnalyzerStorage {
    const retention: int
    const maxRuntimeEventsPerProject: int
    var rows: seq<Row>
    var nextId: nat

    ghost predicate Valid()
      reads this
    {
      InIdOrder(rows, nextId)
    }

    constructor (retention: int, maxRuntimeEventsPerProject: int)
      ensures Valid() && rows == []
      ensures this.retention == retention && this.maxRuntimeEventsPerProject == maxRuntimeEventsPerProject
    {
      this.retention, this.maxRuntimeEventsPerProject := retention, maxRuntimeEventsPerProject;
      rows, nextId := [], 0;
    }

    /** The whole payload is filed under the project of its first event. */
    method AppendRuntime(payload: seq<RuntimeEvent>, now: int)
      requires Valid()
      modifies this
      ensures Valid()
      ensures payload == [] ==> rows == old(rows)
      ensures forall p :: Log(rows, p) ==
                Appended(Log(old(rows), p), Append(payload, now), p, retention, maxRuntimeEventsPerProject)
    {
      hide Log, Retain;
      if payload == [] { return; }
      FileEvents(payload[0].project, payload);
      ghost var filed := rows;
      CompactRuntime(payload[0].project, now);
      FiledThenCompacted(old(rows), filed, rows, payload, now, retention, maxRuntimeEventsPerProject);
    }

    method FileEvents(project: string, payload: seq<RuntimeEvent>)
      requires Valid()
      modifies this
      ensures Valid() && GrownBy(old(rows), rows, project, Stamped(payload))
    {
      for i := 0 to |payload|
        invariant Valid()
        invariant GrownBy(old(rows), rows, project, Stamped(payload[..i]))
      {
        var row := Row(nextId, project, Event(payload[i].timestamp, payload[i].json));
        GrowsByOne(old(rows), rows, Stamped(payload[..i]), row);
        assert Stamped(payload[..i + 1]) == Stamped(payload[..i]) + [row.event];
        rows := rows + [row];
        nextId := nextId + 1;
      }
      assert payload[..|payload|] == payload;
    }

    method CompactRuntime(project: string, now: int)
      requires Valid()
      modifies `rows
      ensures Valid()
      ensures Retained(old(rows), rows, project, now - retention, maxRuntimeEventsPerProject)
    {
      hide Log, WithoutAged;
      ghost var before := rows;
      var cutoff := now - retention;
      rows := WithoutAged(rows, project, cutoff);
      var count := |Log(rows, project)|;
      var extra := count - maxRuntimeEventsPerProject;
      if extra > 0 {
        // LIMIT extra can exceed the number of rows
        var limit := if extra <= count then extra else count;
        rows := WithoutOldest(rows, project, limit);
      }
      assert rows == Compacted(before, project, cutoff, maxRuntimeEventsPerProject);
      CompactedInOrder(before, project, cutoff, maxRuntimeEventsPerProject, nextId);
      forall p { CompactedLog(before, project, cutoff, maxRuntimeEventsPerProject, p); }
    }
  }

  // ---------------------------------------------------------------- runs of one project

  /** One append for the project: the clock when it is compacted, and its stamped events. */
  datatype Batch = Batch(now: int, events: seq<Event>)

  function Incremental(batches: seq<Batch>, retention: int, max: int): seq<Event> {
    if batches == [] then []
    else
      var b := batches[|batches| - 1];
      Retain(Incremental(batches[..|batches| - 1], retention, max) + b.events, b.now - retention, max)
  }

  function History(batches: seq<Batch>): seq<Event> {
    if batches == [] then [] else History(batches[..|batches| - 1]) + batches[|batches| - 1].events
  }

  ghost predicate ClockMonotone(batches: seq<Batch>) {
    forall i, j | 0 <= i < j < |batches| :: batches[i].now <= batches[j].now
  }

  ghost predicate TimeOrdered(s: seq<Event>) {
    forall i, j | 0 <= i < j < |s| :: s[i].createdAt <= s[j].createdAt
  }

  ghost predicate IsSuffix<T>(a: seq<T>, b: seq<T>) { |a| <= |b| && a == b[|b| - |a|..] }

  lemma {:induction false} FreshAppend(a: seq<Event>, b: seq<Event>, cutoff: int)
    ensures Fresh(a + b, cutoff) == Fresh(a, cutoff) + Fresh(b, cutoff)
  {
    if b == [] {
      assert a + b == a;
    } else {
      assert (a + b)[..|a + b| - 1] == a + b[..|b| - 1];
      FreshAppend(a, b[..|b| - 1], cutoff);
    }
  }

  lemma {:induction false} FreshTwice(s: seq<Event>, c: int, c': int)
    requires c <= c'
    ensures Fresh(Fresh(s, c), c') == Fresh(s, c')
  {
    if s != [] {
      var last := s[|s| - 1];
      FreshTwice(s[..|s| - 1], c, c');
      FreshAppend(Fresh(s[..|s| - 1], c), if last.createdAt < c then [] else [last], c');
      assert [last][..0] == [];
      assert Fresh([], c') == [] && Fresh([last], c') == if last.createdAt < c' then [] else [last];
    }
  }

  lemma FreshOfSuffix(a: seq<Event>, b: seq<Event>, cutoff: int)
    requires IsSuffix(a, b)
    ensures IsSuffix(Fresh(a, cutoff), Fresh(b, cutoff))
  {
    var front := b[..|b| - |a|];
    assert b == front + a;
    FreshAppend(front, a, cutoff);
  }

  /** Retention of an end of the fresh history, with more events behind it, is an end of the fresh history. */
  lemma RetainKeepsSuffix(kept: seq<Event>, past: seq<Event>, more: seq<Event>, c0: int, c: int, max: int)
    requires c0 <= c && IsSuffix(kept, Fresh(past, c0))
    ensures IsSuffix(Retain(kept + more, c, max), Fresh(past + more, c))
  {
    var f := Fresh(past, c0);
    FreshTwice(past, c0, c);
    FreshAppend(past, more, c);
    FreshAppend(f, more, c);
    assert f[|f| - |kept|..] + more == (f + more)[|f + more| - |kept + more|..];
    FreshOfSuffix(kept + more, f + more, c);
    SuffixOfSuffix(Retain(kept + more, c, max), Fresh(kept + more, c), Fresh(past + more, c));
  }

  lemma SuffixOfSuffix<T>(a: seq<T>, b: seq<T>, c: seq<T>)
    requires IsSuffix(a, b) && IsSuffix(b, c)
    ensures IsSuffix(a, c)
  {
  }

  lemma IncrementalWithinCap(batches: seq<Batch>, retention: int, max: int)
    ensures |Incremental(batches, retention, max)| <= if max < 0 then 0 else max
  {
  }

  /** The cutoff of the last compaction. */
  function LastCutoff(batches: seq<Batch>, retention: int): int
    requires batches != []
  {
    batches[|batches| - 1].now - retention
  }

  ghost predicate EndsFreshHistory(batches: seq<Batch>, retention: int, max: int, cutoff: int) {
    IsSuffix(Incremental(batches, retention, max), Fresh(History(batches), cutoff))
  }

  lemma OneMoreKeepsSuffix(front: seq<Batch>, b: Batch, retention: int, max: int, c0: int)
    requires c0 <= b.now - retention && EndsFreshHistory(front, retention, max, c0)
    ensures EndsFreshHistory(front + [b], retention, max, b.now - retention)
  {
    RunSnoc(front, b, retention, max);
    RetainKeepsSuffix(Incremental(front, retention, max), History(front), b.events, c0, b.now - retention, max);
  }

  lemma RunSnoc(front: seq<Batch>, b: Batch, retention: int, max: int)
    ensures Incremental(front + [b], retention, max) == Retain(Incremental(front, retention, max) + b.events, b.now - retention, max)
    ensures History(front + [b]) == History(front) + b.events
  {
    assert (front + [b])[..|front|] == front;
  }

  /** Whatever the timestamps, compacting after every append keeps an end of the fresh history. */
  lemma {:induction false} IncrementalIsSuffix(batches: seq<Batch>, retention: int, max: int)
    requires batches != [] && ClockMonotone(batches)
    ensures EndsFreshHistory(batches, retention, max, LastCutoff(batches, retention))
  {
    hide Incremental, History, Fresh, Retain, EndsFreshHistory, ClockMonotone;
    var front, b := batches[..|batches| - 1], batches[|batches| - 1];
    assert batches == front + [b];
    if front == [] {
      NothingKept(retention, max, b.now - retention);
      OneMoreKeepsSuffix(front, b, retention, max, b.now - retention);
    } else {
      FrontMonotone(front, b);
      IncrementalIsSuffix(front, retention, max);
      OneMoreKeepsSuffix(front, b, retention, max, LastCutoff(front, retention));
    }
  }

  lemma NothingKept(retention: int, max: int, cutoff: int)
    ensures EndsFreshHistory([], retention, max, cutoff)
  {
  }

  lemma FrontMonotone(front: seq<Batch>, b: Batch)
    requires front != [] && ClockMonotone(front + [b])
    ensures ClockMonotone(front) && front[|front| - 1].now <= b.now
  {
    var all := front + [b];
    assert forall i | 0 <= i < |front| :: all[i] == front[i];
    assert all[|front|] == b;
  }

  lemma {:induction false} FreshOfOrdered(s: seq<Event>, cutoff: int) returns (k: nat)
    requires TimeOrdered(s)
    ensures k <= |s| && Fresh(s, cutoff) == s[k..]
  {
    if s == [] {
      k := 0;
    } else {
      var n := |s| - 1;
      k := FreshOfOrdered(s[..n], cutoff);
      if s[n].createdAt < cutoff {
        NothingFresh(s[..n], cutoff);
        k := |s|;
      } else {
        assert s[k..] == s[..n][k..] + [s[n]];
      }
    }
  }

  lemma {:induction false} NothingFresh(s: seq<Event>, cutoff: int)
    requires forall i | 0 <= i < |s| :: s[i].createdAt < cutoff
    ensures Fresh(s, cutoff) == []
  {
    if s != [] { NothingFresh(s[..|s| - 1], cutoff); }
  }

  lemma FreshKeepsOrder(s: seq<Event>, cutoff: int)
    requires TimeOrdered(s)
    ensures TimeOrdered(Fresh(s, cutoff))
  {
    var k := FreshOfOrdered(s, cutoff);
  }

  /** Dropping old events that the cap drops anyway changes nothing. */
  lemma CapForgetsPrefix(f: seq<Event>, more: seq<Event>, cutoff: int, max: int)
    requires TimeOrdered(f)
    ensures Retain(KeepLast(f, max) + more, cutoff, max) == Retain(f + more, cutoff, max)
  {
    var k := Overflowing(|f|, max);
    var front, kept := f[..k], f[k..];
    FreshAppend(kept, more, cutoff);
    FreshAppend(f, more, cutoff);
    FreshAppend(front, kept, cutoff);
    assert f == front + kept;
    CapForgetsFresh(front, kept, Fresh(more, cutoff), cutoff, max);
    Chain(Fresh(front, cutoff), Fresh(kept, cutoff), Fresh(more, cutoff));
  }

  lemma CapForgetsFresh(front: seq<Event>, kept: seq<Event>, recent: seq<Event>, cutoff: int, max: int)
    requires TimeOrdered(front + kept) && (front == [] || max <= 0 || |kept| == max)
    ensures KeepLast(Fresh(kept, cutoff) + recent, max) == KeepLast(Fresh(front, cutoff) + (Fresh(kept, cutoff) + recent), max)
  {
    var lost, rest := Fresh(front, cutoff), Fresh(kept, cutoff) + recent;
    if lost == [] {
      assert lost + rest == rest;
    } else if max > 0 {
      OrderedAfter(front, kept, cutoff);
      LongEnough(lost, rest, max);
    }
  }

  lemma LongEnough<T>(x: seq<T>, y: seq<T>, max: int)
    requires |y| >= max
    ensures KeepLast(x + y, max) == KeepLast(y, max)
  {
  }

  /** If anything before is fresh, everything after is. */
  lemma OrderedAfter(front: seq<Event>, kept: seq<Event>, cutoff: int)
    requires TimeOrdered(front + kept) && Fresh(front, cutoff) != []
    ensures Fresh(kept, cutoff) == kept
  {
    if forall i | 0 <= i < |front| :: front[i].createdAt < cutoff {
      NothingFresh(front, cutoff);
    } else {
      var i :| 0 <= i < |front| && front[i].createdAt >= cutoff;
      forall j | 0 <= j < |kept| ensures kept[j].createdAt >= cutoff {
        assert (front + kept)[i] == front[i] && (front + kept)[|front| + j] == kept[j];
      }
      AllFresh(kept, cutoff);
    }
  }

  lemma {:induction false} AllFresh(s: seq<Event>, cutoff: int)
    requires forall i | 0 <= i < |s| :: s[i].createdAt >= cutoff
    ensures Fresh(s, cutoff) == s
  {
    if s != [] {
      AllFresh(s[..|s| - 1], cutoff);
      assert s == s[..|s| - 1] + [s[|s| - 1]];
    }
  }

  /** Events inserted in time order under a monotone clock: retention after every append equals retention applied
      once to the whole history. */
  lemma {:induction false} IncrementalIsOneShot(batches: seq<Batch>, retention: int, max: int)
    requires batches != [] && ClockMonotone(batches) && TimeOrdered(History(batches))
    ensures Incremental(batches, retention, max) ==
            Retain(History(batches), batches[|batches| - 1].now - retention, max)
  {
    var front, b := batches[..|batches| - 1], batches[|batches| - 1];
    assert batches == front + [b];
    RunSnoc(front, b, retention, max);
    if front != [] {
      FrontOrdered(front, b);
      IncrementalIsOneShot(front, retention, max);
    }
    OneShotSnoc(front, b, retention, max);
  }

  lemma FrontOrdered(front: seq<Batch>, b: Batch)
    requires front != [] && ClockMonotone(front + [b]) && TimeOrdered(History(front) + b.events)
    ensures ClockMonotone(front) && TimeOrdered(History(front)) && front[|front| - 1].now <= b.now
  {
    FrontMonotone(front, b);
    var events := History(front) + b.events;
    assert forall i | 0 <= i < |History(front)| :: events[i] == History(front)[i];
  }

  lemma OneShotSnoc(front: seq<Batch>, b: Batch, retention: int, max: int)
    requires front != [] ==> && TimeOrdered(History(front)) && LastCutoff(front, retention) <= b.now - retention
                             && Incremental(front, retention, max) == Retain(History(front), LastCutoff(front, retention), max)
    ensures Retain(Incremental(front, retention, max) + b.events, b.now - retention, max)
         == Retain(History(front) + b.events, b.now - retention, max)
  {
    if front != [] { OneShotStep(History(front), b.events, LastCutoff(front, retention), b.now - retention, max); }
  }

  lemma OneShotStep(past: seq<Event>, more: seq<Event>, c0: int, c: int, max: int)
    requires c0 <= c && TimeOrdered(past)
    ensures Retain(Retain(past, c0, max) + more, c, max) == Retain(past + more, c, max)
  {
    var f := Fresh(past, c0);
    FreshKeepsOrder(past, c0);
    CapForgetsPrefix(f, more, c, max);
    FreshTwice(past, c0, c);
    FreshAppend(past, more, c);
    FreshAppend(f, more, c);
  }

  // ---------------------------------------------------------------- the exact condition

  /** How many events are older than the instant. */
  function Older(s: seq<Event>, x: int): nat {
    if s == [] then 0 else Older(s[..|s| - 1], x) + if s[|s| - 1].createdAt < x then 1 else 0
  }

  /** No event is followed by two older ones. */
  ghost predicate AtMostOneOlder(h: seq<Event>) {
    forall i | 0 <= i < |h| :: Older(h[i + 1..], h[i].createdAt) <= 1
  }

  /** Appends as they are compacted: under a monotone clock, and none of them empty. */
  ghost predicate Appends(batches: seq<Batch>) {
    batches != [] && ClockMonotone(batches) && forall i | 0 <= i < |batches| :: batches[i].events != []
  }

  /** However the history is split into appends, and whatever the cap, retention after every append equals
      retention applied once. */
  ghost predicate AlwaysOneShot(h: seq<Event>, retention: int) {
    forall batches, max | Appends(batches) && History(batches) == h ::
      Incremental(batches, retention, max) == Retain(h, LastCutoff(batches, retention), max)
  }

  /** For every history and every retention period: the two agree for all appends and all caps if and only if no
      event is followed by two older ones. */
  lemma OneShotExactly(h: seq<Event>, retention: int)
    ensures AlwaysOneShot(h, retention) <==> AtMostOneOlder(h)
  {
    hide Incremental, History, Retain, Older;
    if AtMostOneOlder(h) {
      forall batches, max | Appends(batches) && History(batches) == h
        ensures Incremental(batches, retention, max) == Retain(h, LastCutoff(batches, retention), max)
      {
        OneShotByCounting(batches, retention, max);
      }
    } else {
      var i :| 0 <= i < |h| && Older(h[i + 1..], h[i].createdAt) > 1;
      var low := LowerBound(h, h[i].createdAt);
      TwoOlderLoseMore(h, i, low, retention);
      var batches := LosingAppends(h, i, low, retention);
      LosingAppendsAreAppends(h, i, low, retention);
      assert Appends(batches) && History(batches) == h;
    }
  }

  lemma {:induction false} OlderIsAged(s: seq<Event>, x: int)
    ensures |Fresh(s, x)| + Older(s, x) == |s|
  {
    if s != [] { OlderIsAged(s[..|s| - 1], x); }
  }

  /** Time order is a special case. */
  lemma OrderedHasNoneOlder(h: seq<Event>)
    requires TimeOrdered(h)
    ensures AtMostOneOlder(h)
  {
    forall i | 0 <= i < |h| ensures Older(h[i + 1..], h[i].createdAt) <= 1 {
      AllFresh(h[i + 1..], h[i].createdAt);
      OlderIsAged(h[i + 1..], h[i].createdAt);
    }
  }

  lemma OlderAppend(a: seq<Event>, b: seq<Event>, x: int)
    ensures Older(a + b, x) == Older(a, x) + Older(b, x)
  {
    FreshAppend(a, b, x);
    OlderIsAged(a, x);
    OlderIsAged(b, x);
    OlderIsAged(a + b, x);
  }

  lemma {:induction false} OlderOfFresh(s: seq<Event>, c: int, x: int)
    ensures Older(Fresh(s, c), x) <= Older(s, x)
  {
    if s != [] {
      var n := |s| - 1;
      OlderOfFresh(s[..n], c, x);
      OlderAppend(Fresh(s[..n], c), [s[n]], x);
      assert [s[n]][..0] == [] && Fresh(s[..n], c) + [] == Fresh(s[..n], c);
    }
  }

  lemma {:induction false} OlderThanLater(s: seq<Event>, x: int, y: int)
    requires x <= y
    ensures Older(s, x) <= Older(s, y)
  {
    if s != [] { OlderThanLater(s[..|s| - 1], x, y); }
  }

  /** Where a fresh event was in the whole history. */
  lemma {:induction false} PlaceInPast(past: seq<Event>, c: int, i: nat) returns (p: nat)
    requires i < |Fresh(past, c)|
    ensures p < |past| && past[p] == Fresh(past, c)[i] && Fresh(past[p + 1..], c) == Fresh(past, c)[i + 1..]
  {
    var n := |past| - 1;
    var front, last := past[..n], past[n];
    assert past == front + [last];
    FreshSnoc(front, last, c);
    NothingInNothing([], c);
    hide Fresh;
    var f := Fresh(front, c);
    if i < |f| {
      p := PlaceInPast(front, c, i);
      assert past[p + 1..] == front[p + 1..] + [last];
      FreshSnoc(front[p + 1..], last, c);
      TailOfSnoc(f, last, i + 1);
    } else {
      p := n;
      assert past[n + 1..] == [] && Fresh(past, c)[i + 1..] == [];
    }
  }

  lemma TailOfSnoc<T>(s: seq<T>, x: T, i: nat)
    requires i <= |s|
    ensures (s + [x])[i..] == s[i..] + [x] && (s + [])[i..] == s[i..] + []
  {
  }

  /** Dropping aged events, or the end, leaves no event followed by two older ones. */
  lemma AtMostOneAfterAging(past: seq<Event>, c: int, more: seq<Event>)
    requires AtMostOneOlder(past + more)
    ensures AtMostOneOlder(Fresh(past, c) + more)
  {
    hide Fresh, Older;
    var f, all := Fresh(past, c), past + more;
    forall i | 0 <= i < |f + more| ensures Older((f + more)[i + 1..], (f + more)[i].createdAt) <= 1 {
      if i < |f| {
        var p := PlaceInPast(past, c, i);
        var x := past[p].createdAt;
        assert (f + more)[i + 1..] == f[i + 1..] + more && all[p + 1..] == past[p + 1..] + more && all[p] == past[p];
        OlderAppend(f[i + 1..], more, x);
        OlderAppend(past[p + 1..], more, x);
        OlderOfFresh(past[p + 1..], c, x);
      } else {
        var p := i - |f| + |past|;
        assert (f + more)[i + 1..] == all[p + 1..] && (f + more)[i] == all[p];
      }
    }
  }

  lemma AtMostOneInFront(a: seq<Event>, b: seq<Event>)
    requires AtMostOneOlder(a + b)
    ensures AtMostOneOlder(a)
  {
    hide Older;
    var all := a + b;
    forall i | 0 <= i < |a| ensures Older(a[i + 1..], a[i].createdAt) <= 1 {
      assert all[i + 1..] == a[i + 1..] + b && all[i] == a[i];
      OlderAppend(a[i + 1..], b, a[i].createdAt);
    }
  }

  /** If an event before is still fresh, at most one after it is not. */
  lemma OneAgedAfterFresh(front: seq<Event>, rest: seq<Event>, c: int)
    requires AtMostOneOlder(front + rest) && Fresh(front, c) != []
    ensures |Fresh(rest, c)| >= |rest| - 1
  {
    if forall i | 0 <= i < |front| :: front[i].createdAt < c {
      NothingFresh(front, c);
    } else {
      var i :| 0 <= i < |front| && front[i].createdAt >= c;
      var all, x := front + rest, front[i].createdAt;
      assert all[i] == front[i] && all[i + 1..] == front[i + 1..] + rest;
      OlderAppend(front[i + 1..], rest, x);
      OlderThanLater(rest, c, x);
      OlderIsAged(rest, c);
    }
  }

  /** With something appended, dropping old events that the cap drops anyway changes nothing. */
  lemma CapForgetsOlder(f: seq<Event>, more: seq<Event>, c: int, max: int)
    requires AtMostOneOlder(f + more) && more != []
    ensures Retain(KeepLast(f, max) + more, c, max) == Retain(f + more, c, max)
  {
    hide Fresh, Older, AtMostOneOlder;
    var k := Overflowing(|f|, max);
    var front, rest := f[..k], f[k..] + more;
    assert f + more == front + rest;
    FreshAppend(front, rest, c);
    if Fresh(front, c) == [] {
      assert Fresh(front, c) + Fresh(rest, c) == Fresh(rest, c);
    } else if max > 0 {
      NothingInNothing(front, c);
      OneAgedAfterFresh(front, rest, c);
      LongEnough(Fresh(front, c), Fresh(rest, c), max);
    }
  }

  lemma NothingInNothing(s: seq<Event>, c: int)
    ensures s == [] ==> Fresh(s, c) == []
  {
  }

  lemma OneShotOlderStep(past: seq<Event>, more: seq<Event>, c0: int, c: int, max: int)
    requires c0 <= c && AtMostOneOlder(past + more) && more != []
    ensures Retain(Retain(past, c0, max) + more, c, max) == Retain(past + more, c, max)
  {
    hide Older, AtMostOneOlder, KeepLast;
    var f := Fresh(past, c0);
    AtMostOneAfterAging(past, c0, more);
    CapForgetsOlder(f, more, c, max);
    FreshTwice(past, c0, c);
    FreshAppend(past, more, c);
    FreshAppend(f, more, c);
  }

  lemma {:induction false} OneShotByCounting(batches: seq<Batch>, retention: int, max: int)
    requires Appends(batches) && AtMostOneOlder(History(batches))
    ensures Incremental(batches, retention, max) == Retain(History(batches), LastCutoff(batches, retention), max)
  {
    var front, b := batches[..|batches| - 1], batches[|batches| - 1];
    assert batches == front + [b];
    RunSnoc(front, b, retention, max);
    if front == [] {
      assert Incremental(front, retention, max) == History(front) == [];
    } else {
      hide AtMostOneOlder, Incremental, History, Retain;
      FrontMonotone(front, b);
      assert forall i | 0 <= i < |front| :: front[i] == batches[i];
      AtMostOneInFront(History(front), b.events);
      OneShotByCounting(front, retention, max);
      OneShotOlderStep(History(front), b.events, LastCutoff(front, retention), b.now - retention, max);
    }
  }

  lemma {:induction false} LowerBound(h: seq<Event>, start: int) returns (low: int)
    ensures low <= start && forall k | 0 <= k < |h| :: low <= h[k].createdAt
  {
    low := start;
    if h != [] {
      var n := |h| - 1;
      low := LowerBound(h[..n], if h[n].createdAt < start then h[n].createdAt else start);
      assert forall k | 0 <= k < n :: h[..n][k] == h[k];
    }
  }

  /** All events but the last, then the last when the i-th is about to age. */
  function LosingAppends(h: seq<Event>, i: nat, low: int, retention: int): seq<Batch>
    requires i < |h|
  {
    Two(h[..|h| - 1], [h[|h| - 1]], low, h[i].createdAt, retention)
  }

  /** Two appends and the cutoffs of their compactions. */
  function Two(a: seq<Event>, b: seq<Event>, low: int, c: int, retention: int): seq<Batch> {
    [Batch(low + retention, a), Batch(c + retention, b)]
  }

  /** The first append keeps what follows the i-th event; the second finds two of those aged, so the i-th event
      would have had its place. */
  lemma TwoOlderLoseMore(h: seq<Event>, i: nat, low: int, retention: int)
    requires i < |h| && Older(h[i + 1..], h[i].createdAt) > 1 && low <= h[i].createdAt
    requires forall k | 0 <= k < |h| :: low <= h[k].createdAt
    ensures i + 1 < |h| - 1 && History(LosingAppends(h, i, low, retention)) == h
    ensures Incremental(LosingAppends(h, i, low, retention), retention, |h| - i - 2) != Retain(h, h[i].createdAt, |h| - i - 2)
  {
    hide Incremental, History, Fresh, KeepLast, Older, Retain, Two;
    OlderIsAged(h[i + 1..], h[i].createdAt);
    var c, n := h[i].createdAt, |h| - 1;
    assert h[..n] + [h[n]] == h;
    TwoAppends(h[..n], [h[n]], low, c, retention, n - i - 1);
    TwoOlderCap(h, i, low);
  }

  lemma LosingAppendsAreAppends(h: seq<Event>, i: nat, low: int, retention: int)
    requires i + 1 < |h| - 1 && low <= h[i].createdAt
    ensures Appends(LosingAppends(h, i, low, retention))
  {
  }

  lemma TwoOlderCap(h: seq<Event>, i: nat, low: int)
    requires i + 1 < |h| - 1 && |Fresh(h[i + 1..], h[i].createdAt)| + 1 < |h[i + 1..]|
    requires forall k | 0 <= k < |h| :: low <= h[k].createdAt
    ensures var n := |h| - 1;
            Retain(Retain(h[..n], low, n - i - 1) + [h[n]], h[i].createdAt, n - i - 1) != Retain(h, h[i].createdAt, n - i - 1)
  {
    hide Fresh, KeepLast;
    var c, n, rest := h[i].createdAt, |h| - 1, h[i + 1..];
    var max := n - i - 1;
    AllFresh(h[..n], low);
    LongerCap(h[..n], h[i + 1..n], max);
    assert h[i + 1..n] + [h[n]] == rest;
    LongerCap(Fresh(rest, c), Fresh(rest, c), max);
    OneMoreFresh(h[..i], h[i], rest, c);
    assert h == h[..i] + [h[i]] + rest;
    CapLength(Fresh(h, c), max);
  }

  lemma LongerCap<T>(s: seq<T>, end: seq<T>, max: nat)
    requires |end| <= |s| && end == s[|s| - |end|..] && (|end| == max || (|s| <= max && end == s))
    ensures KeepLast(s, max) == end
  {
  }

  lemma CapLength<T>(s: seq<T>, max: nat)
    ensures |KeepLast(s, max)| == if |s| <= max then |s| else max
  {
  }

  lemma OneMoreFresh(front: seq<Event>, e: Event, rest: seq<Event>, cutoff: int)
    requires e.createdAt >= cutoff
    ensures |Fresh(front + [e] + rest, cutoff)| > |Fresh(rest, cutoff)|
  {
    FreshAppend(front + [e], rest, cutoff);
    FreshSnoc(front, e, cutoff);
  }

  lemma TwoAppends(a: seq<Event>, b: seq<Event>, low: int, c: int, retention: int, max: int)
    ensures History(Two(a, b, low, c, retention)) == a + b
    ensures Incremental(Two(a, b, low, c, retention), retention, max) == Retain(Retain(a, low, max) + b, c, max)
  {
    var first, second := Batch(low + retention, a), Batch(c + retention, b);
    assert [first] + [second] == [first, second] && [] + [first] == [first];
    RunSnoc([], first, retention, max);
    RunSnoc([first], second, retention, max);
    assert [] + a == a;
  }

  lemma FreshOne(e: Event, cutoff: int)
    ensures Fresh([e], cutoff) == if e.createdAt < cutoff then [] else [e]
  {
    FreshSnoc([], e, cutoff);
    assert [] + [e] == [e];
  }

  /** An event and two older ones after it: the cap drops the first before the age rule drops the others. */
  lemma OutOfOrderLosesMore(a: Event, b: Event, c: Event)
    requires a.createdAt == 9 && b.createdAt == 1 && c.createdAt == 1
    ensures Appends([Batch(0, [a, b]), Batch(5, [c])]) && History([Batch(0, [a, b]), Batch(5, [c])]) == [a, b, c]
    ensures Incremental([Batch(0, [a, b]), Batch(5, [c])], 2, 1) == [] && Retain([a, b, c], 5 - 2, 1) == [a]
  {
    OutOfOrderRetention(a, b, c);
    hide Retain;
    TwoAppends([a, b], [c], -2, 3, 2, 1);
    assert [a, b] + [c] == [a, b, c] && [b] + [c] == [b, c];
  }

  lemma OutOfOrderRetention(a: Event, b: Event, c: Event)
    requires a.createdAt == 9 && b.createdAt == 1 && c.createdAt == 1
    ensures Retain([a, b], -2, 1) == [b] && Retain([b, c], 3, 1) == [] && Retain([a, b, c], 3, 1) == [a]
  {
    hide Fresh;
    assert [a, b] + [c] == [a, b, c];
    FreshTwo(a, b, -2);
    FreshTwo(b, c, 3);
    FreshTwo(a, b, 3);
    FreshSnoc([a, b], c, 3);
    LongEnough([a], [b], 1);
    assert KeepLast([a], 1) == [a] && KeepLast([b], 1) == [b] && KeepLast<Event>([], 1) == [];
    assert [a] + [] == [a] && [a] + [b] == [a, b];
  }

  lemma FreshTwo(a: Event, b: Event, cutoff: int)
    ensures Fresh([a, b], cutoff) == (if a.createdAt < cutoff then [] else [a]) + (if b.createdAt < cutoff then [] else [b])
  {
    FreshOne(a, cutoff);
    FreshSnoc([a], b, cutoff);
    assert [a, b] == [a] + [b];
  }

  // ---------------------------------------------------------------- runs of the whole table

  /** The appends that concern a project. */
  function BatchesOf(script: seq<Append>, project: string): seq<Batch> {
    if script == [] then []
    else
      var a := script[|script| - 1];
      BatchesOf(script[..|script| - 1], project)
      + if a.payload != [] && a.payload[0].project == project then [Batch(a.now, Stamped(a.payload))] else []
  }

  lemma OneMoreAppend(front: seq<Append>, a: Append, p: string, retention: int, max: int)
    ensures Incremental(BatchesOf(front + [a], p), retention, max) ==
            Appended(Incremental(BatchesOf(front, p), retention, max), a, p, retention, max)
  {
    BatchesSnoc(front, a, p);
    RunSnoc(BatchesOf(front, p), Batch(a.now, Stamped(a.payload)), retention, max);
  }

  lemma BatchesSnoc(front: seq<Append>, a: Append, p: string)
    ensures BatchesOf(front + [a], p) == if a.payload != [] && a.payload[0].project == p
            then BatchesOf(front, p) + [Batch(a.now, Stamped(a.payload))] else BatchesOf(front, p)
  {
    assert (front + [a])[..|front|] == front;
    assert BatchesOf(front, p) + [] == BatchesOf(front, p);
  }

  /** The appends of a project are compacted with something in them. */
  lemma {:induction false} AppendsAreNotEmpty(script: seq<Append>, p: string)
    ensures forall i | 0 <= i < |BatchesOf(script, p)| :: BatchesOf(script, p)[i].events != []
  {
    if script != [] {
      AppendsAreNotEmpty(script[..|script| - 1], p);
      assert script == script[..|script| - 1] + [script[|script| - 1]];
      BatchesSnoc(script[..|script| - 1], script[|script| - 1], p);
    }
  }

  /** Every project has the rows that its own appends leave. */
  ghost predicate Separate(rows: seq<Row>, script: seq<Append>, retention: int, max: int) {
    forall p :: Log(rows, p) == Incremental(BatchesOf(script, p), retention, max)
  }

  lemma NothingSeparate(retention: int, max: int)
    ensures Separate([], [], retention, max)
  {
  }

  lemma SeparateStep(before: seq<Row>, after: seq<Row>, front: seq<Append>, a: Append, retention: int, max: int)
    requires Separate(before, front, retention, max)
    requires forall p :: Log(after, p) == Appended(Log(before, p), a, p, retention, max)
    ensures Separate(after, front + [a], retention, max)
  {
    forall p ensures Log(after, p) == Incremental(BatchesOf(front + [a], p), retention, max) {
      OneMoreAppend(front, a, p, retention, max);
    }
  }

  /** Any sequence of appends, for any mix of projects: each project's rows are those of its own appends alone. */
  method Replay(storage: AnalyzerStorage, script: seq<Append>)
    requires storage.Valid() && storage.rows == []
    modifies storage
    ensures storage.Valid()
    ensures forall p :: Log(storage.rows, p) ==
              Incremental(BatchesOf(script, p), storage.retention, storage.maxRuntimeEventsPerProject)
  {
    hide Log, Incremental;
    NothingSeparate(storage.retention, storage.maxRuntimeEventsPerProject);
    for i := 0 to |script|
      invariant storage.Valid()
      invariant Separate(storage.rows, script[..i], storage.retention, storage.maxRuntimeEventsPerProject)
    {
      ghost var before := storage.rows;
      storage.AppendRuntime(script[i].payload, script[i].now);
      SeparateStep(before, storage.rows, script[..i], script[i], storage.retention, storage.maxRuntimeEventsPerProject);
      assert script[..i + 1] == script[..i] + [script[i]];
    }
    assert script[..|script|] == script;
  }
}
