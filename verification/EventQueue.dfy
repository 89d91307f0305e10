/** The agent's store-and-forward event queue.

    Producers append under the mutex; the push loop takes a batch under the mutex, releases it while the batch
    is sent, and takes it again to record the outcome. So producers interleave with a push in flight. Each
    critical section is one step of a state machine here, and a run is any sequence of steps. */
module EventQueue {
  import opened Wrappers
  import Backoff

  const MAX_SIZE := 10_000
  const BATCH_MAX := 200
  const SECOND := 1_000_000_000
  const PUSH_INTERVAL := 5 * SECOND
  const FIRST_BACKOFF := 10 * SECOND
  const BACKOFF_MAX := 300 * SECOND

  // ---- Runs ----

  /** The queue as seen over a whole run. An event is named by its position in `log`, the sequence of all events
      ever enqueued; `sent`, `flight`, `queued` and `dropped` say where each one is. The last three fields and
      `backoff` are the agent's own; `cleared` counts drops whose counter was reset by a successful push, and
      `unchecked` counts lock-state appends since the last append that checked the size. */
  datatype Run<E> = Run(
    log: seq<E>,
    sent: seq<nat>,
    flight: seq<nat>,
    queued: seq<nat>,
    dropped: seq<nat>,
    cleared: nat,
    unchecked: nat,
    backoff: int,
    dropCount: nat,
    offlineSince: Option<int>)

  datatype Step<E> =
    | Enqueue(event: E)          // queueEvent
    | LockState(event: E)        // the lock-state callback, which does not check the size
    | Tick                       // pushEvents up to the release of the mutex
    | PushOk                     // the critical section after a successful send
    | PushFail(now: int)         // the critical section after a failed send

  function Start<E>(): Run<E> {
    Run([], [], [], [], [], 0, 0, 0, 0, None)
  }

  function Excess(queued: int): (drop: nat) {
    if queued >= MAX_SIZE then queued - MAX_SIZE + 1 else 0
  }

  function BatchSize(queued: nat): nat {
    if queued > BATCH_MAX then BATCH_MAX else queued
  }

  /** What pushEvents does to the backoff before it tries: count down one interval, never below zero. */
  function CountedDown(backoff: int): int {
    if backoff > PUSH_INTERVAL then backoff - PUSH_INTERVAL
    else if backoff > 0 then 0
    else backoff
  }

  function NextBackoff(backoff: int): int {
    if backoff == 0 then FIRST_BACKOFF
    else if backoff * 2 > BACKOFF_MAX then BACKOFF_MAX
    else backoff * 2
  }

  function Next<E>(r: Run<E>, s: Step<E>): Run<E> {
    match s
    case Enqueue(e) =>
      var drop := Excess(|r.queued|);
      r.(log := r.log + [e],
         queued := r.queued[drop..] + [|r.log|],
         dropped := r.dropped + r.queued[..drop],
         dropCount := r.dropCount + drop,
         unchecked := 0)
    case LockState(e) =>
      r.(log := r.log + [e], queued := r.queued + [|r.log|], unchecked := r.unchecked + 1)
    case Tick =>
      if r.flight != [] || r.queued == [] then r
      else
        var b := CountedDown(r.backoff);
        if b > 0 then r.(backoff := b)
        else
          var n := BatchSize(|r.queued|);
          r.(backoff := b, flight := r.queued[..n], queued := r.queued[n..])
    case PushOk =>
      if r.flight == [] then r
      else r.(sent := r.sent + r.flight, flight := [], backoff := 0,
              cleared := r.cleared + r.dropCount,
              dropCount := 0, offlineSince := None)
    case PushFail(now) =>
      if r.flight == [] then r
      else r.(queued := r.flight + r.queued, flight := [], backoff := NextBackoff(r.backoff),
              offlineSince := if r.offlineSince == None then Some(now) else r.offlineSince)
  }

  function After<E>(steps: seq<Step<E>>): Run<E> {
    if steps == [] then Start() else Next(After(steps[..|steps| - 1]), steps[|steps| - 1])
  }

  // ---- How much a step moves ----

  function Least(a: nat, b: nat): nat {
    if a <= b then a else b
  }

  /** After an append that checks the size, the queue is the newest events up to the maximum, the new one among them;
      what is dropped is the rest, so nothing below the maximum and never more than the oldest excess. */
  lemma EnqueueKeepsNewest<E>(r: Run<E>, e: E)
    ensures var all, r' := r.queued + [|r.log|], Next(r, Enqueue(e));
            var n := Least(|r.queued| + 1, MAX_SIZE);
            && r'.log == r.log + [e] && r'.queued == all[|all| - n..]
            && r'.dropped == r.dropped + all[..|all| - n] && r'.dropCount == r.dropCount + (|all| - n)
            && r'.sent == r.sent && r'.flight == r.flight && r'.backoff == r.backoff
  {
  }

  /** A tick that sends takes the oldest events, as many as there are up to a batch, and leaves the rest. */
  lemma TickTakesOldest<E>(r: Run<E>)
    requires r.flight == [] && Next(r, Tick).flight != []
    ensures var n, r' := Least(|r.queued|, BATCH_MAX), Next(r, Tick);
            r'.flight == r.queued[..n] && r'.queued == r.queued[n..] && r.backoff <= PUSH_INTERVAL
  {
  }

  /** The time of the first failure since the last success, or since the start. */
  function FirstFailure<E>(steps: seq<Step<E>>): Option<int> {
    if steps == [] then None
    else
      var n := |steps| - 1;
      var before := FirstFailure(steps[..n]);
      if After(steps[..n]).flight == [] then before
      else if steps[n].PushOk? then None
      else if steps[n].PushFail? && before == None then Some(steps[n].now)
      else before
  }

  lemma {:induction false} OfflineSinceFirstFailure<E>(steps: seq<Step<E>>)
    ensures After(steps).offlineSince == FirstFailure(steps)
  {
    if steps != [] {
      OfflineSinceFirstFailure(steps[..|steps| - 1]);
    }
  }

  // ---- What every step keeps ----

  function Ids(n: nat): seq<nat> {
    seq(n, i => i)
  }

  /** Everything still held or delivered, oldest first. */
  function Kept<E>(r: Run<E>): seq<nat> {
    r.sent + r.flight + r.queued
  }

  ghost predicate Ascending(s: seq<nat>) {
    forall i, j :: 0 <= i < j < |s| ==> s[i] < s[j]
  }

  /** The first `n` events are among those kept and those dropped, each once. */
  ghost predicate Balanced(kept: seq<nat>, dropped: seq<nat>, n: nat) {
    multiset(kept) + multiset(dropped) == multiset(Ids(n))
  }

  /** Each event is in exactly one place, and delivery keeps the enqueue order. */
  ghost predicate Conserved<E>(r: Run<E>) {
    && Balanced(Kept(r), r.dropped, |r.log|)
    && Ascending(Kept(r))
    && r.cleared + r.dropCount == |r.dropped|
  }

  /** The queue is bounded up to the appends that skipped the size check, and the backoff is one of three
      values, zero while a batch is out. */
  predicate Bounded<E>(r: Run<E>) {
    && |r.flight| <= BATCH_MAX
    && |r.queued| <= MAX_SIZE + (if r.flight == [] then BATCH_MAX else 0) + r.unchecked
    && r.backoff in {0, PUSH_INTERVAL, FIRST_BACKOFF}
    && (r.flight != [] ==> r.backoff == 0)
  }

  ghost predicate Inv<E>(r: Run<E>) {
    Conserved(r) && Bounded(r)
  }

  lemma IdsGrow(n: nat)
    ensures Ids(n + 1) == Ids(n) + [n]
  {
  }

  lemma KeptInLog<E>(r: Run<E>)
    requires Conserved(r)
    ensures forall x :: x in Kept(r) ==> x < |r.log|
  {
    forall x | x in Kept(r)
      ensures x < |r.log|
    {
      assert x in multiset(Kept(r)) + multiset(r.dropped);
      assert x in multiset(Ids(|r.log|));
    }
  }

  lemma AppendKept<E>(r: Run<E>, drop: nat)
    requires Conserved(r) && drop <= |r.queued|
    ensures Ascending(r.sent + r.flight + (r.queued[drop..] + [|r.log|]))
  {
    KeptInLog(r);
    var k, d := Kept(r), |r.sent| + |r.flight|;
    var k' := r.sent + r.flight + (r.queued[drop..] + [|r.log|]);
    forall i, j | 0 <= i < j < |k'|
      ensures k'[i] < k'[j]
    {
      var i0, j0 := if i < d then i else i + drop, if j < d then j else j + drop;
      assert k'[i] == k[i0];
      if j < |k'| - 1 {
        assert k'[j] == k[j0];
      } else {
        assert k[i0] in k;
      }
    }
  }

  lemma AppendBalances(front: seq<nat>, gone: seq<nat>, stay: seq<nat>, dropped: seq<nat>, n: nat)
    requires Balanced(front + (gone + stay), dropped, n)
    ensures Balanced(front + (stay + [n]), dropped + gone, n + 1)
  {
    IdsGrow(n);
    assert multiset(front + (gone + stay)) == multiset(front) + (multiset(gone) + multiset(stay));
    assert multiset(front + (stay + [n])) == multiset(front) + (multiset(stay) + multiset([n]));
  }

  lemma EnqueueConserves<E>(r: Run<E>, e: E)
    requires Conserved(r)
    ensures Conserved(Next(r, Enqueue(e)))
  {
    hide Balanced, Ascending;
    var drop, n := Excess(|r.queued|), |r.log|;
    var gone, stay, front := r.queued[..drop], r.queued[drop..], r.sent + r.flight;
    AppendKept(r, drop);
    assert Balanced(front + (gone + stay), r.dropped, n) by {
      assert Kept(r) == front + (gone + stay);
    }
    AppendBalances(front, gone, stay, r.dropped, n);
  }

  lemma LockStateConserves<E>(r: Run<E>, e: E)
    requires Conserved(r)
    ensures Conserved(Next(r, LockState(e)))
  {
    hide Balanced, Ascending;
    var n, front := |r.log|, r.sent + r.flight;
    AppendKept(r, 0);
    assert r.queued[0..] == r.queued && [] + r.queued == r.queued && r.dropped + [] == r.dropped;
    AppendBalances(front, [], r.queued, r.dropped, n);
  }

  lemma PushMovesNothing<E>(r: Run<E>, s: Step<E>)
    requires s.Tick? || s.PushOk? || s.PushFail?
    ensures var r' := Next(r, s);
            && Kept(r') == Kept(r) && r'.dropped == r.dropped && r'.log == r.log
            && r'.cleared + r'.dropCount == r.cleared + r.dropCount
  {
    var n := BatchSize(|r.queued|);
    assert r.queued == r.queued[..n] + r.queued[n..];
  }

  lemma PushConserves<E>(r: Run<E>, s: Step<E>)
    requires Conserved(r) && (s.Tick? || s.PushOk? || s.PushFail?)
    ensures Conserved(Next(r, s))
  {
    hide Balanced, Ascending;
    PushMovesNothing(r, s);
  }

  lemma StepBounds<E>(r: Run<E>, s: Step<E>)
    requires Bounded(r)
    ensures Bounded(Next(r, s))
  {
  }

  lemma StepKeepsInv<E>(r: Run<E>, s: Step<E>)
    requires Inv(r)
    ensures Inv(Next(r, s))
  {
    StepBounds(r, s);
    match s
    case Enqueue(e) => EnqueueConserves(r, e);
    case LockState(e) => LockStateConserves(r, e);
    case _ => PushConserves(r, s);
  }

  lemma {:induction false} RunKeepsInv<E>(steps: seq<Step<E>>)
    ensures Inv(After(steps))
  {
    if steps == [] {
      assert Kept(After(steps)) == [];
    } else {
      RunKeepsInv(steps[..|steps| - 1]);
      StepKeepsInv(After(steps[..|steps| - 1]), steps[|steps| - 1]);
    }
  }

  // ---- Consequences over every run ----

  function Count(x: nat, s: seq<nat>): nat {
    multiset(s)[x]
  }

  /** Every event ever enqueued is in exactly one of the four places, exactly once; nothing else is. */
  lemma EachEventOnce<E>(steps: seq<Step<E>>, x: nat)
    ensures var r := After(steps);
            Count(x, r.sent) + Count(x, r.flight) + Count(x, r.queued) + Count(x, r.dropped)
            == if x < |r.log| then 1 else 0
  {
    var r := After(steps);
    RunKeepsInv(steps);
    IdsOnce(|r.log|, x);
    assert multiset(Kept(r))[x] == Count(x, r.sent) + Count(x, r.flight) + Count(x, r.queued);
  }

  lemma {:induction false} IdsOnce(n: nat, x: nat)
    ensures Count(x, Ids(n)) == if x < n then 1 else 0
  {
    if n > 0 {
      IdsGrow(n - 1);
      IdsOnce(n - 1, x);
    }
  }

  /** The events named by `ids`. */
  function Pick<E>(log: seq<E>, ids: seq<nat>): (r: seq<E>)
    requires forall i :: 0 <= i < |ids| ==> ids[i] < |log|
    ensures |r| == |ids|
  {
    seq(|ids|, i requires 0 <= i < |ids| => log[ids[i]])
  }

  function Logged<E>(step: Step<E>): seq<E> {
    if step.Enqueue? || step.LockState? then [step.event] else []
  }

  /** The log is what the producers appended, in order. */
  function Produced<E>(steps: seq<Step<E>>): seq<E> {
    if steps == [] then [] else Produced(steps[..|steps| - 1]) + Logged(steps[|steps| - 1])
  }

  lemma {:induction false} LogIsProduced<E>(steps: seq<Step<E>>)
    ensures After(steps).log == Produced(steps)
  {
    if steps != [] {
      LogIsProduced(steps[..|steps| - 1]);
    }
  }

  /** The batch in flight followed by the queue is in enqueue order and later than everything sent. */
  lemma DeliveryKeepsOrder<E>(steps: seq<Step<E>>, i: nat, j: nat)
    requires i < j < |Kept(After(steps))|
    ensures Kept(After(steps))[i] < Kept(After(steps))[j] < |Produced(steps)|
  {
    RunKeepsInv(steps);
    LogIsProduced(steps);
    KeptInLog(After(steps));
    assert Kept(After(steps))[j] in Kept(After(steps));
  }

  predicate Checked<E>(steps: seq<Step<E>>) {
    forall i :: 0 <= i < |steps| ==> !steps[i].LockState?
  }

  lemma {:induction false} NoneUnchecked<E>(steps: seq<Step<E>>)
    requires Checked(steps)
    ensures After(steps).unchecked == 0
  {
    if steps != [] {
      NoneUnchecked(steps[..|steps| - 1]);
    }
  }

  /** With queueEvent as the only producer, the queue never holds more than one batch over its maximum, not
      even after failed batches were put back. */
  lemma QueueBound<E>(steps: seq<Step<E>>)
    requires Checked(steps)
    ensures |After(steps).queued| <= MAX_SIZE + BATCH_MAX
  {
    RunKeepsInv(steps);
    NoneUnchecked(steps);
  }

  /** The bound is reached: a full queue, a batch out, the queue filled again, and the batch put back. */
  lemma QueueBoundReached<E>(e: E, now: int)
    ensures exists steps: seq<Step<E>> :: Checked(steps) && |After(steps).queued| == MAX_SIZE + BATCH_MAX
  {
    hide Next, After, Checked;
    var fill, more := Repeat(Enqueue(e), MAX_SIZE), Repeat(Enqueue(e), BATCH_MAX);
    var s1 := fill + [Tick];
    var s2 := s1 + more;
    AfterNothing<E>();
    RepeatEnqueue(e, MAX_SIZE, []);
    assert [] + fill == fill;
    AfterStep(fill, Tick);
    TickTakes(After(fill));
    RepeatEnqueue(e, BATCH_MAX, s1);
    AfterStep(s2, PushFail(now));
    FailPutsBack(After(s2), now);
    RepeatChecked(e, MAX_SIZE);
    RepeatChecked(e, BATCH_MAX);
    NoLockState(fill, more, now);
    assert Checked(s2 + [PushFail(now)]);
  }

  lemma AfterNothing<E>()
    ensures After<E>([]) == Start()
  {
  }

  lemma AfterStep<E>(steps: seq<Step<E>>, s: Step<E>)
    ensures After(steps + [s]) == Next(After(steps), s)
  {
    assert (steps + [s])[..|steps|] == steps;
  }

  lemma NoLockState<E>(fill: seq<Step<E>>, more: seq<Step<E>>, now: int)
    requires Checked(fill) && Checked(more)
    ensures Checked(fill + [Tick] + more + [PushFail(now)])
  {
  }

  lemma RepeatChecked<E>(e: E, n: nat)
    ensures Checked(Repeat(Enqueue(e), n))
  {
  }

  lemma TickTakes<E>(r: Run<E>)
    requires r.flight == [] && r.backoff == 0 && |r.queued| == MAX_SIZE
    ensures |Next(r, Tick).flight| == BATCH_MAX && |Next(r, Tick).queued| == MAX_SIZE - BATCH_MAX
  {
  }

  lemma FailPutsBack<E>(r: Run<E>, now: int)
    requires r.flight != []
    ensures |Next(r, PushFail(now)).queued| == |r.flight| + |r.queued|
  {
  }

  function Repeat<E>(s: Step<E>, n: nat): (r: seq<Step<E>>)
    ensures |r| == n && forall i :: 0 <= i < n ==> r[i] == s
  {
    seq(n, _ => s)
  }

  lemma {:induction false} RepeatEnqueue<E>(e: E, n: nat, before: seq<Step<E>>)
    requires |After(before).queued| + n <= MAX_SIZE
    ensures |After(before + Repeat(Enqueue(e), n)).queued| == |After(before).queued| + n
    ensures After(before + Repeat(Enqueue(e), n)).flight == After(before).flight
    ensures After(before + Repeat(Enqueue(e), n)).backoff == After(before).backoff
  {
    var all := before + Repeat(Enqueue(e), n);
    if n == 0 {
      assert all == before;
    } else {
      assert all[..|all| - 1] == before + Repeat(Enqueue(e), n - 1);
      RepeatEnqueue(e, n - 1, before);
    }
  }

  /** The lock-state callback is the reason for the restriction: on its own it grows the queue without bound. */
  lemma {:induction false} LockStateUnbounded<E>(e: E, n: nat)
    ensures |After(Repeat(LockState(e), n)).queued| == n
  {
    if n > 0 {
      assert Repeat(LockState(e), n)[..n - 1] == Repeat(LockState(e), n - 1);
      LockStateUnbounded(e, n - 1);
    }
  }

  /** The branch that doubles the backoff is never taken: every failure finds it zero, so the wait after a
      failure is always the first one, however many failures came before. */
  lemma BackoffNeverGrows<E>(steps: seq<Step<E>>, now: int)
    requires After(steps).flight != []
    ensures After(steps).backoff == 0
    ensures Next(After(steps), PushFail(now)).backoff == FIRST_BACKOFF
  {
    RunKeepsInv(steps);
  }

  /** The backoff after `failures` failed sends if no tick counted it down in between. */
  function Ladder(failures: nat): int {
    if failures == 0 then 0 else NextBackoff(Ladder(failures - 1))
  }

  /** The ladder no run climbs is the server's own retry schedule, from ten seconds to five minutes. */
  lemma {:induction false} LadderIsRetrySchedule(failures: nat)
    ensures Ladder(failures) == Backoff.Delay(failures, 10 * SECOND, 300 * SECOND)
  {
    hide Backoff.Delay;
    Backoff.DelayDoubles(if failures > 0 then failures - 1 else 0, 10 * SECOND, 300 * SECOND);
    if failures > 0 {
      LadderIsRetrySchedule(failures - 1);
      if failures > 1 {
        Backoff.DelayMonotone(1, failures - 1, 10 * SECOND, 300 * SECOND);
      }
    }
  }

  // ---- Retries ----

  function Produce<E>(r: Run<E>, steps: seq<Step<E>>): Run<E> {
    if steps == [] then r else Next(Produce(r, steps[..|steps| - 1]), steps[|steps| - 1])
  }

  predicate Producers<E>(steps: seq<Step<E>>) {
    forall i :: 0 <= i < |steps| ==> steps[i].Enqueue? || steps[i].LockState?
  }

  lemma {:induction false} ProducersLeaveBackoff<E>(r: Run<E>, steps: seq<Step<E>>)
    requires Producers(steps)
    ensures var q := Produce(r, steps);
            q.backoff == r.backoff && q.flight == r.flight && (r.queued != [] ==> q.queued != [])
  {
    if steps != [] {
      ProducersLeaveBackoff(r, steps[..|steps| - 1]);
    }
  }

  /** After any failure, whatever the producers do meanwhile, the first tick waits and the second one sends. */
  lemma RetriedOnSecondTick<E>(steps: seq<Step<E>>, now: int, p1: seq<Step<E>>, p2: seq<Step<E>>)
    requires After(steps).flight != [] && Producers(p1) && Producers(p2)
    ensures var failed := Next(After(steps), PushFail(now));
            var once := Next(Produce(failed, p1), Tick);
            var twice := Next(Produce(once, p2), Tick);
            once.flight == [] && twice.flight != []
  {
    RunKeepsInv(steps);
    var failed := Next(After(steps), PushFail(now));
    ProducersLeaveBackoff(failed, p1);
    var once := Next(Produce(failed, p1), Tick);
    ProducersLeaveBackoff(once, p2);
  }

  /** Whenever the loop is idle with something queued, at most two ticks pass before the next attempt. */
  lemma AttemptedWithinTwoTicks<E>(steps: seq<Step<E>>, p: seq<Step<E>>)
    requires After(steps).flight == [] && After(steps).queued != [] && Producers(p)
    ensures var once := Next(After(steps), Tick);
            once.flight != [] || Next(Produce(once, p), Tick).flight != []
  {
    RunKeepsInv(steps);
    ProducersLeaveBackoff(Next(After(steps), Tick), p);
  }

  // ---- The agent's fields ----

  /** The ids of a run name logged events. */
  ghost predicate InLog(ids: seq<nat>, n: nat) {
    forall i :: 0 <= i < |ids| ==> ids[i] < n
  }

  lemma KeptIdsInLog<E>(r: Run<E>)
    requires Inv(r)
    ensures InLog(r.sent, |r.log|) && InLog(r.flight, |r.log|) && InLog(r.queued, |r.log|)
  {
    KeptInLog(r);
    assert forall i :: 0 <= i < |r.sent| ==> r.sent[i] in Kept(r);
    assert forall i :: 0 <= i < |r.flight| ==> r.flight[i] in Kept(r);
    assert forall i :: 0 <= i < |r.queued| ==> r.queued[i] in Kept(r);
  }

  lemma PickAppend<E>(log: seq<E>, a: seq<nat>, b: seq<nat>)
    requires InLog(a, |log|) && InLog(b, |log|)
    ensures InLog(a + b, |log|) && Pick(log, a + b) == Pick(log, a) + Pick(log, b)
  {
  }

  lemma PickSplit<E>(log: seq<E>, ids: seq<nat>, n: nat)
    requires InLog(ids, |log|) && n <= |ids|
    ensures Pick(log, ids)[..n] == Pick(log, ids[..n])
    ensures Pick(log, ids)[n..] == Pick(log, ids[n..])
  {
  }

  class Queue<E> {
    var eventQueue: seq<E>
    var eventPushBackoff: int
    var eventQueueDropped: nat
    var offlineSince: Option<int>
    ghost var run: Run<E>

    /** The fields are those of `run`. */
    ghost predicate Shows(run: Run<E>)
      reads this
    {
      && InLog(run.queued, |run.log|)
      && eventQueue == Pick(run.log, run.queued)
      && eventPushBackoff == run.backoff
      && eventQueueDropped == run.dropCount
      && offlineSince == run.offlineSince
    }

    ghost predicate Valid()
      reads this
    {
      Inv(run) && Shows(run)
    }

    constructor ()
      ensures Valid() && run == Start()
    {
      eventQueue, eventPushBackoff, eventQueueDropped, offlineSince := [], 0, 0, None;
      run := Start();
      new;
      RunKeepsInv<E>([]);
    }

    method QueueEvent(evt: E)
      requires Valid()
      modifies this
      ensures Valid() && run == Next(old(run), Enqueue(evt))
    {
      StepKeepsInv(run, Enqueue(evt));
      if |eventQueue| >= MAX_SIZE {
        var drop := |eventQueue| - MAX_SIZE + 1;
        eventQueue := eventQueue[drop..];
        eventQueueDropped := eventQueueDropped + drop;
      }
      eventQueue := eventQueue + [evt];
      run := Next(run, Enqueue(evt));
      assert Shows(run);
    }

    method LockStateChanged(evt: E)
      requires Valid()
      modifies this
      ensures Valid() && run == Next(old(run), LockState(evt))
    {
      StepKeepsInv(run, LockState(evt));
      eventQueue := eventQueue + [evt];
      run := Next(run, LockState(evt));
      assert Shows(run);
    }

    /** pushEvents up to the release of the mutex; `batch` is what it goes on to send, if anything. */
    method TakeBatch() returns (batch: Option<seq<E>>)
      requires Valid() && run.flight == []
      modifies this
      ensures Valid() && run == Next(old(run), Tick)
      ensures InLog(run.flight, |run.log|)
      ensures batch == if run.flight == [] then None else Some(Pick(run.log, run.flight))
    {
      hide Inv, InLog, Pick;
      StepKeepsInv(run, Tick);
      ghost var next := Next(run, Tick);
      KeptIdsInLog(next);
      batch := None;
      if |eventQueue| == 0 {
        return;
      }
      if eventPushBackoff > 0 {
        eventPushBackoff := eventPushBackoff - PUSH_INTERVAL;
        if eventPushBackoff > 0 {
          run := next;
          return;
        }
        eventPushBackoff := 0;
      }
      var batchSize := |eventQueue|;
      if batchSize > BATCH_MAX {
        batchSize := BATCH_MAX;
      }
      batch := Some(eventQueue[..batchSize]);
      eventQueue := eventQueue[batchSize..];
      PickSplit(run.log, run.queued, batchSize);
      run := next;
    }

    /** The critical section after a successful send; returns the number of drops it reports. */
    method PushSucceeded() returns (dropped: nat)
      requires Valid() && run.flight != []
      modifies this
      ensures Valid() && run == Next(old(run), PushOk)
      ensures dropped == run.cleared - old(run.cleared) && run.cleared == |run.dropped|
    {
      StepKeepsInv(run, PushOk);
      offlineSince := None;
      eventPushBackoff := 0;
      dropped := eventQueueDropped;
      eventQueueDropped := 0;
      run := Next(run, PushOk);
      assert Shows(run);
    }

    /** The critical section after a failed send of `batch`. */
    method PushFailed(batch: seq<E>, now: int)
      requires Valid() && run.flight != []
      requires InLog(run.flight, |run.log|) && batch == Pick(run.log, run.flight)
      modifies this
      ensures Valid() && run == Next(old(run), PushFail(now))
    {
      hide Inv, InLog, Pick;
      StepKeepsInv(run, PushFail(now));
      PickAppend(run.log, run.flight, run.queued);
      eventQueue := batch + eventQueue;
      if offlineSince == None {
        offlineSince := Some(now);
      }
      eventPushBackoff := NextBackoff(eventPushBackoff);
      run := Next(run, PushFail(now));
      assert Shows(run);
    }
  }
}
