/**
 The bounded runtime-event buffer. The lock is released while a batch is posted, so the code is a machine of
 atomic steps: append and trim; take the batch; acknowledge; put a failed batch back and trim.
 */
module EventEmitter {

  // ---------------------------------------------------------------- the lock-protected state

  /** What the lock protects. `E` is a serialized event. */
  datatype Buffer<E> = Buffer(events: seq<E>, dropped: nat, failures: nat)

  function Overflow(n: int, max: int): nat {
    if max <= 0 || n <= max then 0 else n - max
  }

  /** Drop the oldest events beyond a positive bound. */
  function Trim<E>(b: Buffer<E>, max: int): Buffer<E> {
    var k := Overflow(|b.events|, max);
    b.(events := b.events[k..], dropped := b.dropped + k)
  }

  function Append<E>(b: Buffer<E>, max: int, e: E): Buffer<E> {
    Trim(b.(events := b.events + [e]), max)
  }

  function Requeue<E>(b: Buffer<E>, max: int, batch: seq<E>): Buffer<E> {
    Trim(b.(events := batch + b.events, failures := b.failures + 1), max)
  }

  // ---------------------------------------------------------------- the class

  datatype FlushResult = Sent(count: nat) | Suppressed | Raised

  class Emitter<E> {
    const maxBufferSize: int
    const batchSize: int
    const failOpen: bool
    var buffer: seq<E>
    var droppedEventsCount: nat
    var flushFailuresCount: nat

    constructor (maxBufferSize: int, batchSize: int, failOpen: bool)
      ensures View() == Buffer([], 0, 0)
      ensures this.maxBufferSize == maxBufferSize && this.batchSize == batchSize && this.failOpen == failOpen
    {
      this.maxBufferSize, this.batchSize, this.failOpen := maxBufferSize, batchSize, failOpen;
      buffer, droppedEventsCount, flushFailuresCount := [], 0, 0;
    }

    function View(): Buffer<E>
      reads this
    {
      Buffer(buffer, droppedEventsCount, flushFailuresCount)
    }

    method TrimBufferLocked()
      modifies this
      ensures View() == Trim(old(View()), maxBufferSize)
    {
      if maxBufferSize <= 0 { return; }
      var overflow := |buffer| - maxBufferSize;
      if overflow > 0 {
        buffer := buffer[overflow..];
        droppedEventsCount := droppedEventsCount + overflow;
      }
    }

    /** The locked part of `emit`; the caller flushes next when told to. */
    method EmitLocked(e: E) returns (shouldFlush: bool)
      modifies this
      ensures View() == Append(old(View()), maxBufferSize, e)
      ensures shouldFlush <==> |buffer| >= batchSize
    {
      buffer := buffer + [e];
      TrimBufferLocked();
      shouldFlush := |buffer| >= batchSize;
    }

    /** The first locked part of `flush`; an empty batch means there is nothing to post. */
    method TakeBatchLocked() returns (batch: seq<E>)
      modifies this
      ensures batch == old(buffer) && View() == old(View()).(events := [])
    {
      batch := buffer;
      buffer := [];
    }

    /** The locked part of the failure branch of `flush`. */
    method RequeueLocked(batch: seq<E>)
      modifies this
      ensures View() == Requeue(old(View()), maxBufferSize, batch)
    {
      flushFailuresCount := flushFailuresCount + 1;
      buffer := batch + buffer;
      TrimBufferLocked();
    }

    /** A flush that no other thread interrupts; `posted` says whether the POST succeeded. */
    method Flush(posted: bool, suppressErrors: bool) returns (r: FlushResult)
      modifies this
      ensures old(buffer) == [] ==> r == Sent(0) && View() == old(View())
      ensures old(buffer) != [] && posted ==> r == Sent(|old(buffer)|) && View() == old(View()).(events := [])
      ensures old(buffer) != [] && !posted ==>
                r == (if suppressErrors then Suppressed else Raised)
                && View() == Requeue(old(View()).(events := []), maxBufferSize, old(buffer))
    {
      if buffer == [] { return Sent(0); }
      var batch := TakeBatchLocked();
      if posted { return Sent(|batch|); }
      RequeueLocked(batch);
      r := if suppressErrors then Suppressed else Raised;
    }
  }

  // ---------------------------------------------------------------- all threads together

  /**
   The shared buffer, the batches being posted (one per flush under way, in the order they were taken), and
   the history: what was emitted, which batches were acknowledged, what was dropped.
   */
  datatype System<E> = System(buffer: Buffer<E>, flights: seq<seq<E>>, emitted: seq<E>, acked: seq<seq<E>>,
                              lost: seq<E>)

  datatype Action<E> = Emit(e: E) | Take | Ack(flight: nat) | Fail(flight: nat)

  function Initial<E>(): System<E> { System(Buffer([], 0, 0), [], [], [], []) }

  /** `Take` on an empty buffer posts nothing; a reply belongs to a batch under way. */
  predicate Enabled<E>(s: System<E>, a: Action<E>) {
    match a
    case Emit(_) => true
    case Take => |s.buffer.events| > 0
    case Ack(i) => i < |s.flights|
    case Fail(i) => i < |s.flights|
  }

  function Without<T>(s: seq<T>, i: nat): seq<T>
    requires i < |s|
  {
    s[..i] + s[i + 1..]
  }

  function Step<E>(max: int, s: System<E>, a: Action<E>): System<E>
    requires Enabled(s, a)
  {
    match a
    case Emit(e) =>
      var all := s.buffer.events + [e];
      s.(buffer := Append(s.buffer, max, e), emitted := s.emitted + [e], lost := s.lost + all[..Overflow(|all|, max)])
    case Take =>
      s.(buffer := s.buffer.(events := []), flights := s.flights + [s.buffer.events])
    case Ack(i) =>
      s.(flights := Without(s.flights, i), acked := s.acked + [s.flights[i]])
    case Fail(i) =>
      var all := s.flights[i] + s.buffer.events;
      s.(buffer := Requeue(s.buffer, max, s.flights[i]), flights := Without(s.flights, i),
         lost := s.lost + all[..Overflow(|all|, max)])
  }

  predicate EnabledRun<E>(max: int, s: System<E>, run: seq<Action<E>>)
    decreases |run|
  {
    run == [] || (Enabled(s, run[0]) && EnabledRun(max, Step(max, s, run[0]), run[1..]))
  }

  function Run<E>(max: int, s: System<E>, run: seq<Action<E>>): System<E>
    requires EnabledRun(max, s, run)
    decreases |run|
  {
    if run == [] then s else Run(max, Step(max, s, run[0]), run[1..])
  }

  // ---------------------------------------------------------------- nothing is lost uncounted

  function Flat<E>(batches: seq<seq<E>>): seq<E> {
    if batches == [] then [] else batches[0] + Flat(batches[1..])
  }

  lemma {:induction false} FlatAppend<E>(xs: seq<seq<E>>, ys: seq<seq<E>>)
    ensures Flat(xs + ys) == Flat(xs) + Flat(ys)
  {
    if xs == [] {
      assert xs + ys == ys;
    } else {
      assert (xs + ys)[1..] == xs[1..] + ys;
      FlatAppend(xs[1..], ys);
    }
  }

  lemma FlatOne<E>(x: seq<E>)
    ensures Flat([x]) == x
  {
    assert Flat([x]) == x + Flat([]);
  }

  lemma FlatWithout<E>(xs: seq<seq<E>>, i: nat)
    requires i < |xs|
    ensures multiset(Flat(xs)) == multiset(Flat(Without(xs, i))) + multiset(xs[i])
  {
    hide Flat;
    assert xs == xs[..i] + ([xs[i]] + xs[i + 1..]);
    FlatAppend(xs[..i], [xs[i]] + xs[i + 1..]);
    FlatAppend([xs[i]], xs[i + 1..]);
    FlatAppend(xs[..i], xs[i + 1..]);
    FlatOne(xs[i]);
  }

  ghost predicate Conserved<E>(s: System<E>) {
    && multiset(s.emitted) == multiset(Flat(s.acked)) + multiset(s.buffer.events) + multiset(Flat(s.flights)) + multiset(s.lost)
    && s.buffer.dropped == |s.lost|
  }

  lemma SplitContents<E>(all: seq<E>, k: nat)
    requires k <= |all|
    ensures multiset(all) == multiset(all[..k]) + multiset(all[k..])
  {
    assert all == all[..k] + all[k..];
  }

  /** Contents that come in and are split into kept and lost. */
  lemma Regroup<E(!new)>(emitted: multiset<E>, acked: multiset<E>, buffered: multiset<E>, flying: multiset<E>, lost: multiset<E>,
                   more: multiset<E>, cut: multiset<E>, kept: multiset<E>)
    requires emitted == acked + buffered + flying + lost && buffered + more == cut + kept
    ensures emitted + more == acked + kept + flying + (lost + cut)
  {
    forall e ensures (emitted + more)[e] == (acked + kept + flying + (lost + cut))[e] {
      assert (buffered + more)[e] == (cut + kept)[e];
    }
  }

  lemma EmitConserves<E(!new)>(max: int, s: System<E>, e: E)
    requires Conserved(s)
    ensures Conserved(Step(max, s, Emit(e)))
  {
    var s' := Step(max, s, Emit(e));
    var all := s.buffer.events + [e];
    var k := Overflow(|all|, max);
    SplitContents(all, k);
    assert s'.buffer.events == all[k..] && s'.lost == s.lost + all[..k];
    assert multiset(all) == multiset(s.buffer.events) + multiset([e]);
    Regroup(multiset(s.emitted), multiset(Flat(s.acked)), multiset(s.buffer.events), multiset(Flat(s.flights)), multiset(s.lost),
            multiset([e]), multiset(all[..k]), multiset(all[k..]));
    assert multiset(s'.emitted) == multiset(s.emitted) + multiset([e]);
    assert multiset(s'.lost) == multiset(s.lost) + multiset(all[..k]);
  }

  lemma TakeConserves<E>(max: int, s: System<E>)
    requires Conserved(s) && Enabled(s, Take)
    ensures Conserved(Step(max, s, Take))
  {
    FlatAppend(s.flights, [s.buffer.events]);
    FlatOne(s.buffer.events);
  }

  lemma AckConserves<E>(max: int, s: System<E>, i: nat)
    requires Conserved(s) && Enabled(s, Ack(i))
    ensures Conserved(Step(max, s, Ack(i)))
  {
    FlatWithout(s.flights, i);
    FlatAppend(s.acked, [s.flights[i]]);
    FlatOne(s.flights[i]);
  }

  lemma FailConserves<E(!new)>(max: int, s: System<E>, i: nat)
    requires Conserved(s) && Enabled(s, Fail(i))
    ensures Conserved(Step(max, s, Fail(i)))
  {
    var s' := Step(max, s, Fail(i));
    var all := s.flights[i] + s.buffer.events;
    var k := Overflow(|all|, max);
    var others := multiset(Flat(Without(s.flights, i)));
    FlatWithout(s.flights, i);
    SplitContents(all, k);
    assert s'.buffer.events == all[k..] && s'.lost == s.lost + all[..k];
    assert multiset(all) == multiset(s.buffer.events) + multiset(s.flights[i]);
    Regroup(multiset(s.emitted) - multiset(s.flights[i]), multiset(Flat(s.acked)), multiset(s.buffer.events), others, multiset(s.lost),
            multiset(s.flights[i]), multiset(all[..k]), multiset(all[k..]));
    assert multiset(s'.lost) == multiset(s.lost) + multiset(all[..k]);
  }

  lemma StepConserves<E(!new)>(max: int, s: System<E>, a: Action<E>)
    requires Enabled(s, a) && Conserved(s)
    ensures Conserved(Step(max, s, a))
  {
    match a
    case Emit(e) => EmitConserves(max, s, e);
    case Take => TakeConserves(max, s);
    case Ack(i) => AckConserves(max, s, i);
    case Fail(i) => FailConserves(max, s, i);
  }

  lemma StepKeepsBound<E>(max: int, s: System<E>, a: Action<E>)
    requires Enabled(s, a) && (max <= 0 || |s.buffer.events| <= max)
    ensures max <= 0 || |Step(max, s, a).buffer.events| <= max
  {
  }

  /** How many replies of the run are failures. */
  function FailedReplies<E>(run: seq<Action<E>>): nat {
    if run == [] then 0 else (if run[0].Fail? then 1 else 0) + FailedReplies(run[1..])
  }

  lemma {:induction false} RunCounts<E>(max: int, s: System<E>, run: seq<Action<E>>)
    requires EnabledRun(max, s, run)
    ensures Run(max, s, run).buffer.failures == s.buffer.failures + FailedReplies(run)
    ensures max <= 0 ==> Run(max, s, run).lost == s.lost
    decreases |run|
  {
    if run != [] {
      StepCounts(max, s, run[0]);
      RunCounts(max, Step(max, s, run[0]), run[1..]);
    }
  }

  lemma StepCounts<E>(max: int, s: System<E>, a: Action<E>)
    requires Enabled(s, a)
    ensures Step(max, s, a).buffer.failures == s.buffer.failures + if a.Fail? then 1 else 0
    ensures max <= 0 ==> Step(max, s, a).lost == s.lost
  {
  }

  lemma {:induction false} RunConserves<E(!new)>(max: int, s: System<E>, run: seq<Action<E>>)
    requires EnabledRun(max, s, run) && Conserved(s)
    requires max <= 0 || |s.buffer.events| <= max
    ensures Conserved(Run(max, s, run))
    ensures max <= 0 || |Run(max, s, run).buffer.events| <= max
    decreases |run|
  {
    if run != [] {
      StepConserves(max, s, run[0]);
      StepKeepsBound(max, s, run[0]);
      RunConserves(max, Step(max, s, run[0]), run[1..]);
    }
  }

  /** In every interleaving of emitters and flushes, every emitted event is acknowledged, buffered, being posted
      or dropped, each exactly as often as it was emitted; the counters count the dropped events and the failed
      replies; a positive bound holds whenever the lock is free, and without one nothing is dropped. */
  lemma EveryEventAccountedFor<E(!new)>(max: int, run: seq<Action<E>>)
    requires EnabledRun(max, Initial(), run)
    ensures var s := Run(max, Initial(), run);
            && multiset(s.emitted) == multiset(Flat(s.acked)) + multiset(s.buffer.events) + multiset(Flat(s.flights)) + multiset(s.lost)
            && s.buffer.dropped == |s.lost| && s.buffer.failures == FailedReplies(run)
            && (max > 0 ==> |s.buffer.events| <= max) && (max <= 0 ==> s.lost == [])
  {
    assert Conserved(Initial<E>());
    RunCounts(max, Initial(), run);
    RunConserves(max, Initial(), run);
  }

  // ---------------------------------------------------------------- order, with one flush at a time

  /** The same elements in the same order, some left out. */
  predicate IsSubsequence<E(==)>(a: seq<E>, b: seq<E>)
    decreases |b|
  {
    || a == []
    || (b != [] && IsSubsequence(a, b[..|b| - 1]))
    || (b != [] && a[|a| - 1] == b[|b| - 1] && IsSubsequence(a[..|a| - 1], b[..|b| - 1]))
  }

  lemma SubsequenceSnoc<E>(a: seq<E>, b: seq<E>, x: E)
    requires IsSubsequence(a, b)
    ensures IsSubsequence(a + [x], b + [x]) && IsSubsequence(a, b + [x])
  {
    assert (a + [x])[..|a|] == a && (b + [x])[..|b|] == b;
  }

  lemma {:induction false} SubsequenceThenTail<E>(a: seq<E>, b: seq<E>, tail: seq<E>)
    requires IsSubsequence(a, b)
    ensures IsSubsequence(a + tail, b + tail)
    decreases |tail|
  {
    hide IsSubsequence;
    if tail == [] {
      assert a + tail == a && b + tail == b;
    } else {
      var n := |tail| - 1;
      SubsequenceThenTail(a, b, tail[..n]);
      SubsequenceSnoc(a + tail[..n], b + tail[..n], tail[n]);
      assert a + tail == a + tail[..n] + [tail[n]] && b + tail == b + tail[..n] + [tail[n]];
    }
  }

  lemma {:induction false} SubsequenceThenSkip<E>(a: seq<E>, b: seq<E>, skipped: seq<E>)
    requires IsSubsequence(a, b)
    ensures IsSubsequence(a, b + skipped)
    decreases |skipped|
  {
    hide IsSubsequence;
    if skipped == [] {
      assert b + skipped == b;
    } else {
      var n := |skipped| - 1;
      SubsequenceThenSkip(a, b, skipped[..n]);
      SubsequenceSnoc(a, b + skipped[..n], skipped[n]);
      assert b + skipped == b + skipped[..n] + [skipped[n]];
    }
  }

  function LastN<E>(s: seq<E>, n: nat): seq<E>
    requires n <= |s|
  {
    s[|s| - n..]
  }

  /** Everything emitted so far is `done`, then the batch under way (if any), then `queue`; the buffer is the end
      of `queue`, and shorter only because the bound trimmed it. */
  ghost predicate InOrder<E>(max: int, s: System<E>, done: seq<E>, queue: seq<E>) {
    && |s.flights| <= 1
    && s.emitted == done + Flat(s.flights) + queue
    && IsSubsequence(Flat(s.acked), done)
    && |s.buffer.events| <= |queue| && s.buffer.events == LastN(queue, |s.buffer.events|)
    && (|s.buffer.events| == |queue| || (s.flights != [] && max > 0 && |s.buffer.events| == max))
  }

  ghost predicate Ordered<E(!new)>(max: int, s: System<E>) {
    exists done, queue :: InOrder(max, s, done, queue)
  }

  /** A flush starts only when none is under way. */
  predicate SingleFlight<E>(max: int, s: System<E>, run: seq<Action<E>>)
    requires EnabledRun(max, s, run)
    decreases |run|
  {
    run == [] || ((run[0].Take? ==> s.flights == []) && SingleFlight(max, Step(max, s, run[0]), run[1..]))
  }

  /** With no flush under way, dropping the first k of what follows `done` keeps the order. */
  lemma IdleInOrder<E(!new)>(max: int, s: System<E>, done: seq<E>, all: seq<E>, k: nat)
    requires k <= |all| && s.flights == [] && s.buffer.events == all[k..]
    requires s.emitted == done + all && IsSubsequence(Flat(s.acked), done)
    ensures Ordered(max, s)
  {
    assert Flat(s.flights) == [];
    hide IsSubsequence, Flat;
    SubsequenceThenSkip(Flat(s.acked), done, all[..k]);
    assert all == all[..k] + all[k..];
    assert s.emitted == (done + all[..k]) + Flat(s.flights) + all[k..];
    assert InOrder(max, s, done + all[..k], all[k..]);
  }

  lemma EmitKeepsOrder<E(!new)>(max: int, s: System<E>, done: seq<E>, queue: seq<E>, e: E)
    requires InOrder(max, s, done, queue) && (max <= 0 || |s.buffer.events| <= max)
    ensures Ordered(max, Step(max, s, Emit(e)))
  {
    var s' := Step(max, s, Emit(e));
    var all := s.buffer.events + [e];
    var k := Overflow(|all|, max);
    if s.flights == [] {
      assert s.emitted == done + queue && s'.emitted == done + all;
      IdleInOrder(max, s', done, all, k);
    } else {
      var queue' := queue + [e];
      var gone := |queue| - |s.buffer.events|;
      assert s'.emitted == done + Flat(s'.flights) + queue';
      assert queue'[gone..] == all;
      assert s'.buffer.events == all[k..] == queue'[gone + k..];
      assert InOrder(max, s', done, queue');
    }
  }

  lemma TakeKeepsOrder<E(!new)>(max: int, s: System<E>, done: seq<E>, queue: seq<E>)
    requires InOrder(max, s, done, queue) && Enabled(s, Take) && s.flights == []
    ensures Ordered(max, Step(max, s, Take))
  {
    var s' := Step(max, s, Take);
    FlatOne(s.buffer.events);
    assert s'.flights == [s.buffer.events];
    assert s'.emitted == done + Flat(s'.flights) + [];
    assert InOrder(max, s', done, []);
  }

  lemma AckKeepsOrder<E(!new)>(max: int, s: System<E>, done: seq<E>, queue: seq<E>)
    requires InOrder(max, s, done, queue) && Enabled(s, Ack(0))
    ensures Ordered(max, Step(max, s, Ack(0)))
  {
    var s' := Step(max, s, Ack(0));
    var batch := s.flights[0];
    FlatOne(batch);
    assert s.flights == [batch];
    FlatAppend(s.acked, [batch]);
    SubsequenceThenTail(Flat(s.acked), done, batch);
    IdleInOrder(max, s', done + batch, queue, |queue| - |s.buffer.events|);
  }

  /** If the buffer was trimmed while the batch was away, a failure drops the whole batch. */
  lemma FailKeepsOrder<E(!new)>(max: int, s: System<E>, done: seq<E>, queue: seq<E>)
    requires InOrder(max, s, done, queue) && Enabled(s, Fail(0)) && (max <= 0 || |s.buffer.events| <= max)
    ensures Ordered(max, Step(max, s, Fail(0)))
    ensures |s.buffer.events| < |queue| ==> Step(max, s, Fail(0)).buffer.events == s.buffer.events
  {
    var s' := Step(max, s, Fail(0));
    var batch := s.flights[0];
    var all := batch + s.buffer.events;
    var gone := |queue| - |s.buffer.events|;
    FlatOne(batch);
    assert s.flights == [batch];
    assert s.emitted == done + (batch + queue);
    if gone == 0 {
      assert s.buffer.events == queue;
      IdleInOrder(max, s', done, all, Overflow(|all|, max));
    } else {
      assert all[|batch|..] == s.buffer.events == (batch + queue)[|batch| + gone..];
      IdleInOrder(max, s', done, batch + queue, |batch| + gone);
    }
  }

  lemma OneFlight<E(!new)>(max: int, s: System<E>, done: seq<E>, queue: seq<E>)
    requires InOrder(max, s, done, queue)
    ensures |s.flights| <= 1
  {
  }

  lemma StepKeepsOrder<E(!new)>(max: int, s: System<E>, a: Action<E>)
    requires Enabled(s, a) && Ordered(max, s) && (a.Take? ==> s.flights == [])
    requires max <= 0 || |s.buffer.events| <= max
    ensures Ordered(max, Step(max, s, a))
  {
    hide InOrder, Step;
    var done, queue :| InOrder(max, s, done, queue);
    OneFlight(max, s, done, queue);
    match a
    case Emit(e) => EmitKeepsOrder(max, s, done, queue, e);
    case Take => TakeKeepsOrder(max, s, done, queue);
    case Ack(i) => AckKeepsOrder(max, s, done, queue);
    case Fail(i) => FailKeepsOrder(max, s, done, queue);
  }

  lemma {:induction false} RunKeepsOrder<E(!new)>(max: int, s: System<E>, run: seq<Action<E>>)
    requires EnabledRun(max, s, run) && SingleFlight(max, s, run)
    requires Ordered(max, s) && (max <= 0 || |s.buffer.events| <= max)
    ensures Ordered(max, Run(max, s, run))
    ensures max <= 0 || |Run(max, s, run).buffer.events| <= max
    decreases |run|
  {
    if run != [] {
      StepKeepsOrder(max, s, run[0]);
      StepKeepsBound(max, s, run[0]);
      RunKeepsOrder(max, Step(max, s, run[0]), run[1..]);
    }
  }

  /** With at most one flush under way, and any emits meanwhile: the buffer is always a contiguous end of what
      was emitted, within a positive bound, and the acknowledged batches, one after another, are an in-order
      subsequence of what was emitted. */
  lemma BufferIsSuffix<E(!new)>(max: int, run: seq<Action<E>>)
    requires EnabledRun(max, Initial(), run) && SingleFlight(max, Initial(), run)
    ensures var s := Run(max, Initial(), run);
            && |s.buffer.events| <= |s.emitted| && s.buffer.events == LastN(s.emitted, |s.buffer.events|)
            && (max > 0 ==> |s.buffer.events| <= max)
            && IsSubsequence(Flat(s.acked), s.emitted)
  {
    var s0 := Initial<E>();
    assert InOrder(max, s0, [], []);
    RunKeepsOrder(max, s0, run);
    OrderedMeans(max, Run(max, s0, run));
  }

  lemma OrderedMeans<E(!new)>(max: int, s: System<E>)
    requires Ordered(max, s)
    ensures |s.buffer.events| <= |s.emitted| && s.buffer.events == LastN(s.emitted, |s.buffer.events|)
    ensures IsSubsequence(Flat(s.acked), s.emitted)
  {
    hide IsSubsequence, Flat, LastN;
    var done, queue :| InOrder(max, s, done, queue);
    var front := done + Flat(s.flights);
    SubsequenceThenSkip(Flat(s.acked), done, Flat(s.flights));
    SubsequenceThenSkip(Flat(s.acked), front, queue);
    EndOfEnd(front, queue, |s.buffer.events|);
  }

  lemma EndOfEnd<E>(front: seq<E>, queue: seq<E>, n: nat)
    requires n <= |queue|
    ensures LastN(front + queue, n) == LastN(queue, n)
  {
  }

  // ---------------------------------------------------------------- order, with any number of flushes

  /** Events are the numbers of their emission; a rising list is in the order of emission. */
  ghost predicate Rising(s: seq<nat>) {
    forall i, j :: 0 <= i < j < |s| ==> s[i] < s[j]
  }

  /** A failed batch that meets, in the buffer, events emitted before its last one, and is not dropped whole. */
  predicate Overtaken(max: int, batch: seq<nat>, buffer: seq<nat>) {
    && batch != [] && buffer != [] && buffer[0] < batch[|batch| - 1]
    && Overflow(|batch| + |buffer|, max) < |batch|
  }

  lemma RisingJoin(batch: seq<nat>, buffer: seq<nat>, k: nat)
    requires Rising(batch) && Rising(buffer) && k <= |batch| + |buffer|
    requires batch != [] && buffer != [] ==> batch[|batch| - 1] != buffer[0]
    ensures Rising((batch + buffer)[k..]) <==>
            !(batch != [] && buffer != [] && buffer[0] < batch[|batch| - 1] && k < |batch|)
  {
    var all := batch + buffer;
    var rest := all[k..];
    if batch != [] && buffer != [] && k < |batch| {
      assert rest[|batch| - 1 - k] == batch[|batch| - 1] && rest[|batch| - k] == buffer[0];
      if batch[|batch| - 1] < buffer[0] {
        forall i, j | 0 <= i < j < |rest| ensures rest[i] < rest[j] {
          assert rest[i] == all[k + i] && rest[j] == all[k + j];
          if k + i < |batch| <= k + j { assert batch[k + i] <= batch[|batch| - 1] < buffer[0] <= buffer[k + j - |batch|]; }
        }
      }
    } else if batch == [] || k >= |batch| {
      forall i, j | 0 <= i < j < |rest| ensures rest[i] < rest[j] {
        assert rest[i] == buffer[k + i - |batch|] && rest[j] == buffer[k + j - |batch|];
      }
    } else {
      assert all == batch;
    }
  }

  /** In any state, with any number of batches under way, a failing reply leaves the buffer in order if and only if
      its batch is not overtaken: no event older than the batch's last one came back and is still buffered, or the
      bound drops the whole batch. */
  lemma FailReordersExactly(max: int, s: System<nat>, i: nat)
    requires i < |s.flights| && Rising(s.flights[i]) && Rising(s.buffer.events)
    requires s.flights[i] != [] && s.buffer.events != [] ==> s.flights[i][|s.flights[i]| - 1] != s.buffer.events[0]
    ensures Rising(Step(max, s, Fail(i)).buffer.events) <==> !Overtaken(max, s.flights[i], s.buffer.events)
  {
    var all := s.flights[i] + s.buffer.events;
    RisingJoin(s.flights[i], s.buffer.events, Overflow(|all|, max));
  }

  /** Every emitted event carries its number. */
  predicate Numbered(max: int, s: System<nat>, run: seq<Action<nat>>)
    requires EnabledRun(max, s, run)
    decreases |run|
  {
    run == [] || ((run[0].Emit? ==> run[0].e == |s.emitted|) && Numbered(max, Step(max, s, run[0]), run[1..]))
  }

  /** No failing batch of the run is overtaken. */
  predicate NeverOvertaken(max: int, s: System<nat>, run: seq<Action<nat>>)
    requires EnabledRun(max, s, run)
    decreases |run|
  {
    run == [] || (&& (run[0].Fail? ==> !Overtaken(max, s.flights[run[0].flight], s.buffer.events))
                  && NeverOvertaken(max, Step(max, s, run[0]), run[1..]))
  }

  /** The buffer is in order in every state of the run. */
  ghost predicate AlwaysRising(max: int, s: System<nat>, run: seq<Action<nat>>)
    requires EnabledRun(max, s, run)
    decreases |run|
  {
    Rising(s.buffer.events) && (run == [] || AlwaysRising(max, Step(max, s, run[0]), run[1..]))
  }

  /** Batches and buffer hold events already emitted, each batch in order, none of them twice. */
  ghost predicate InTurn(s: System<nat>) {
    && (forall i | 0 <= i < |s.flights| :: Rising(s.flights[i]) && Earlier(s.flights[i], |s.emitted|))
    && Earlier(s.buffer.events, |s.emitted|)
    && (forall i | 0 <= i < |s.flights| :: Apart(s.flights[i], s.buffer.events))
    && (forall i, j | 0 <= i < j < |s.flights| :: Apart(s.flights[i], s.flights[j]))
  }

  ghost predicate Earlier(s: seq<nat>, n: nat) { forall i | 0 <= i < |s| :: s[i] < n }

  ghost predicate Apart(a: seq<nat>, b: seq<nat>) { forall i, j | 0 <= i < |a| && 0 <= j < |b| :: a[i] != b[j] }

  lemma EmitInTurn(max: int, s: System<nat>, e: nat)
    requires InTurn(s) && Rising(s.buffer.events) && e == |s.emitted|
    ensures InTurn(Step(max, s, Emit(e))) && Rising(Step(max, s, Emit(e)).buffer.events)
  {
    var all := s.buffer.events + [e];
    var k := Overflow(|all|, max);
    var s' := Step(max, s, Emit(e));
    assert s'.buffer.events == all[k..] && s'.flights == s.flights && |s'.emitted| == e + 1;
    forall i | 0 <= i < |s.flights| ensures Apart(s.flights[i], all[k..]) && Earlier(s.flights[i], e + 1) {
      assert Apart(s.flights[i], s.buffer.events) && Earlier(s.flights[i], e);
    }
  }

  lemma FailInTurn(max: int, s: System<nat>, i: nat)
    requires InTurn(s) && i < |s.flights|
    ensures InTurn(Step(max, s, Fail(i)))
  {
    var s', all := Step(max, s, Fail(i)), s.flights[i] + s.buffer.events;
    var k := Overflow(|all|, max);
    assert s'.buffer.events == all[k..] && s'.flights == Without(s.flights, i);
    forall j | 0 <= j < |s'.flights| ensures Apart(s'.flights[j], all[k..]) {
      var m := if j < i then j else j + 1;
      assert s'.flights[j] == s.flights[m] && Apart(s.flights[m], s.buffer.events);
      assert if m < i then Apart(s.flights[m], s.flights[i]) else Apart(s.flights[i], s.flights[m]);
    }
  }

  lemma StepInTurn(max: int, s: System<nat>, a: Action<nat>)
    requires Enabled(s, a) && InTurn(s) && Rising(s.buffer.events) && (a.Emit? ==> a.e == |s.emitted|)
    ensures InTurn(Step(max, s, a))
    ensures !a.Fail? ==> Rising(Step(max, s, a).buffer.events)
  {
    match a
    case Emit(e) => EmitInTurn(max, s, e);
    case Take => assert Step(max, s, a).flights == s.flights + [s.buffer.events];
    case Ack(i) => assert Step(max, s, a).flights == Without(s.flights, i);
    case Fail(i) => FailInTurn(max, s, i);
  }

  lemma {:induction false} OrderFrom(max: int, s: System<nat>, run: seq<Action<nat>>)
    requires EnabledRun(max, s, run) && Numbered(max, s, run) && InTurn(s) && Rising(s.buffer.events)
    ensures AlwaysRising(max, s, run) <==> NeverOvertaken(max, s, run)
    decreases |run|
  {
    if run != [] {
      var a, s' := run[0], Step(max, s, run[0]);
      StepInTurn(max, s, a);
      if a.Fail? { FailKeepsApart(max, s, a.flight); }
      if Rising(s'.buffer.events) { OrderFrom(max, s', run[1..]); }
    }
  }

  lemma FailKeepsApart(max: int, s: System<nat>, i: nat)
    requires InTurn(s) && Rising(s.buffer.events) && i < |s.flights|
    ensures Rising(Step(max, s, Fail(i)).buffer.events) <==> !Overtaken(max, s.flights[i], s.buffer.events)
  {
    assert Rising(s.flights[i]) && Apart(s.flights[i], s.buffer.events);
    FailReordersExactly(max, s, i);
  }

  /** In every interleaving of emits and any number of flushes, the buffer is in the order of emission throughout
      if and only if no failing batch is overtaken. */
  lemma OrderExactly(max: int, run: seq<Action<nat>>)
    requires EnabledRun(max, Initial(), run) && Numbered(max, Initial(), run)
    ensures AlwaysRising(max, Initial(), run) <==> NeverOvertaken(max, Initial(), run)
  {
    OrderFrom(max, Initial(), run);
  }

  // ---------------------------------------------------------------- the order of acknowledgements

  /** The batch starts after the last event acknowledged so far. */
  predicate StartsAfter(acked: seq<nat>, batch: seq<nat>) {
    acked == [] || batch == [] || acked[|acked| - 1] < batch[0]
  }

  /** Every acknowledged batch is in order itself and starts after what was acknowledged before. */
  ghost predicate AckedInTurn(max: int, s: System<nat>, run: seq<Action<nat>>)
    requires EnabledRun(max, s, run)
    decreases |run|
  {
    run == [] || (&& (run[0].Ack? ==> Rising(s.flights[run[0].flight]) && StartsAfter(Flat(s.acked), s.flights[run[0].flight]))
                  && AckedInTurn(max, Step(max, s, run[0]), run[1..]))
  }

  /** No batch is acknowledged after a later one. */
  predicate NoneAckedLate(max: int, s: System<nat>, run: seq<Action<nat>>)
    requires EnabledRun(max, s, run)
    decreases |run|
  {
    run == [] || (&& (run[0].Ack? ==> StartsAfter(Flat(s.acked), s.flights[run[0].flight]))
                  && NoneAckedLate(max, Step(max, s, run[0]), run[1..]))
  }

  lemma RisingAppend(a: seq<nat>, b: seq<nat>)
    ensures Rising(a + b) <==> Rising(a) && Rising(b) && StartsAfter(a, b)
  {
    var all := a + b;
    assert forall i | 0 <= i < |a| :: all[i] == a[i];
    assert forall i | 0 <= i < |b| :: all[|a| + i] == b[i];
    if Rising(all) {
      forall i, j | 0 <= i < j < |b| ensures b[i] < b[j] { assert all[|a| + i] < all[|a| + j]; }
      if a != [] && b != [] { assert all[|a| - 1] < all[|a|]; }
    }
    if Rising(a) && Rising(b) && StartsAfter(a, b) {
      forall i, j | 0 <= i < j < |all| ensures all[i] < all[j] {
        if i < |a| <= j { assert a[i] <= a[|a| - 1] < b[0] <= b[j - |a|]; }
      }
    }
  }

  lemma {:induction false} AckOrderFrom(max: int, s: System<nat>, run: seq<Action<nat>>)
    requires EnabledRun(max, s, run)
    ensures Rising(Flat(Run(max, s, run).acked)) <==> Rising(Flat(s.acked)) && AckedInTurn(max, s, run)
    decreases |run|
  {
    if run != [] {
      AckOrderFrom(max, Step(max, s, run[0]), run[1..]);
      if run[0].Ack? {
        var batch := s.flights[run[0].flight];
        FlatAppend(s.acked, [batch]);
        FlatOne(batch);
        RisingAppend(Flat(s.acked), batch);
      }
    }
  }

  lemma {:induction false} BatchesStayInOrder(max: int, s: System<nat>, run: seq<Action<nat>>)
    requires EnabledRun(max, s, run) && Numbered(max, s, run) && InTurn(s) && Rising(s.buffer.events)
    requires NeverOvertaken(max, s, run)
    ensures AckedInTurn(max, s, run) <==> NoneAckedLate(max, s, run)
    decreases |run|
  {
    if run != [] {
      var a := run[0];
      StepInTurn(max, s, a);
      if a.Fail? { FailKeepsApart(max, s, a.flight); }
      BatchesStayInOrder(max, Step(max, s, a), run[1..]);
    }
  }

  /** In every interleaving the acknowledged events, one batch after another, are in the order of emission if and
      only if every acknowledged batch is in order and starts after what was acknowledged before; when no failing
      batch is overtaken, if and only if no batch is acknowledged after a later one. */
  lemma AckOrderExactly(max: int, run: seq<Action<nat>>)
    requires EnabledRun(max, Initial(), run) && Numbered(max, Initial(), run)
    ensures Rising(Flat(Run(max, Initial(), run).acked)) <==> AckedInTurn(max, Initial(), run)
    ensures NeverOvertaken(max, Initial(), run) ==>
              (Rising(Flat(Run(max, Initial(), run).acked)) <==> NoneAckedLate(max, Initial(), run))
  {
    AckOrderFrom(max, Initial(), run);
    if NeverOvertaken(max, Initial(), run) { BatchesStayInOrder(max, Initial(), run); }
  }

  // ---------------------------------------------------------------- numbers stand for any events

  function Named<E>(names: nat -> E, s: seq<nat>): seq<E> { seq(|s|, i requires 0 <= i < |s| => names(s[i])) }

  function NamedBatches<E>(names: nat -> E, batches: seq<seq<nat>>): seq<seq<E>> {
    seq(|batches|, i requires 0 <= i < |batches| => Named(names, batches[i]))
  }

  function NamedSystem<E>(names: nat -> E, s: System<nat>): System<E> {
    System(Buffer(Named(names, s.buffer.events), s.buffer.dropped, s.buffer.failures), NamedBatches(names, s.flights),
           Named(names, s.emitted), NamedBatches(names, s.acked), Named(names, s.lost))
  }

  function NamedAction<E>(names: nat -> E, a: Action<nat>): Action<E> {
    match a case Emit(e) => Emit(names(e)) case Take => Take case Ack(i) => Ack(i) case Fail(i) => Fail(i)
  }

  lemma NamedParts<E>(names: nat -> E, a: seq<nat>, b: seq<nat>, k: nat)
    requires k <= |a| + |b|
    ensures Named(names, a + b) == Named(names, a) + Named(names, b)
    ensures Named(names, (a + b)[k..]) == (Named(names, a) + Named(names, b))[k..]
    ensures Named(names, (a + b)[..k]) == (Named(names, a) + Named(names, b))[..k]
  {
  }

  lemma NamedWithout<E>(names: nat -> E, batches: seq<seq<nat>>, i: nat)
    requires i < |batches|
    ensures NamedBatches(names, Without(batches, i)) == Without(NamedBatches(names, batches), i)
  {
  }

  lemma NamedRequeue<E>(names: nat -> E, max: int, s: System<nat>, batch: seq<nat>)
    ensures var t := NamedSystem(names, s); var all := batch + s.buffer.events; var k := Overflow(|all|, max);
            && NamedSystem(names, s.(buffer := Requeue(s.buffer, max, batch))).buffer == Requeue(t.buffer, max, Named(names, batch))
            && Named(names, s.lost + all[..k]) == t.lost + (Named(names, batch) + t.buffer.events)[..k]
  {
    var all := batch + s.buffer.events;
    var k := Overflow(|all|, max);
    NamedParts(names, batch, s.buffer.events, k);
    NamedParts(names, s.lost, all[..k], 0);
  }

  /** The buffer never looks at its events: what happens to any events is what happens to their numbers. */
  lemma StepNamed<E>(names: nat -> E, max: int, s: System<nat>, a: Action<nat>)
    requires Enabled(s, a)
    ensures Enabled(NamedSystem(names, s), NamedAction(names, a))
    ensures Step(max, NamedSystem(names, s), NamedAction(names, a)) == NamedSystem(names, Step(max, s, a))
  {
    match a
    case Emit(e) =>
      var all := s.buffer.events + [e];
      var k := Overflow(|all|, max);
      NamedParts(names, s.buffer.events, [e], k);
      NamedParts(names, s.emitted, [e], 0);
      NamedParts(names, s.lost, all[..k], 0);
      assert Named(names, [e]) == [names(e)];
    case Take =>
      assert NamedBatches(names, s.flights + [s.buffer.events]) == NamedBatches(names, s.flights) + [Named(names, s.buffer.events)];
    case Ack(i) =>
      NamedWithout(names, s.flights, i);
      assert NamedBatches(names, s.acked + [s.flights[i]]) == NamedBatches(names, s.acked) + [Named(names, s.flights[i])];
    case Fail(i) =>
      NamedWithout(names, s.flights, i);
      NamedRequeue(names, max, s, s.flights[i]);
  }

  /** Without that condition the order is lost: two overlapping flushes that fail put the later batch first. */
  lemma OverlapReorders()
    ensures var run := [Emit(1), Take, Emit(2), Take, Fail(0), Fail(0)];
            EnabledRun(10, Initial(), run) && Run(10, Initial(), run).buffer.events == [2, 1]
  {
    var s1 := Step(10, Initial<int>(), Emit(1));
    var s2 := Step(10, s1, Take);
    var s3 := Step(10, s2, Emit(2));
    var s4 := Step(10, s3, Take);
    var s5 := Step(10, s4, Fail(0));
    var s6 := Step(10, s5, Fail(0));
    assert s6.buffer.events == [2, 1];
    var run := [Emit(1), Take, Emit(2), Take, Fail(0), Fail(0)];
    assert run[1..][1..][1..][1..][1..][1..] == [];
  }
}
