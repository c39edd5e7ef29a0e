/** Reads from many threads sharing the handle pool (src/image.rs, `read_segment_range` and
    `PositionedSegmentLease`): every interleaving of acquiring, sleeping, releasing, waking,
    borrowing and changing the limit. */
module SegmentPoolThreads {
  import opened Basics
  import opened SegmentPool

  /** `Releasing` has dropped its clone of the file but not yet taken the lock and notified;
      `Woken` has left the condition variable but not yet checked the pool again. */
  datatype Thread = Quiet | Asleep(segment: nat) | Woken(segment: nat) | Reading(segment: nat,
          handle: Handle) | Releasing

  datatype System = System(pool: Pool, threads: seq<Thread>)

  datatype Action =
    | Attempt(thread: nat, segment: nat, opens: bool, metadata: bool)
    | Release(thread: nat)
    | Notify(thread: nat, woken: Option<nat>)
    | Spurious(thread: nat)
    | Borrow(segment: nat, opens: bool)
    | Resize(maximum: Option<nat>)

  predicate Wants(t: Thread, segment: nat) {
    t.Quiet? || t == Woken(segment)
  }

  function Attempted(s: System, thread: nat, segment: nat, opens: bool, metadata: bool): System
    requires thread < |s.threads|
  {
    var (pool, r) := Acquire(s.pool, segment, opens);
    match r
    case Granted(handle) =>
      if metadata && segment < |pool.leases| then
        System(pool.(leases := pool.leases[segment := pool.leases[segment] + 1]),
               s.threads[thread := Reading(segment, handle)])
      else System(pool, s.threads[thread := Quiet])
    case Busy => System(pool, s.threads[thread := Asleep(segment)])
    case Failed => System(pool, s.threads[thread := Quiet])
  }

  ghost predicate Next(s: System, a: Action, t: System) {
    match a
    case Attempt(thread, segment, opens, metadata) =>
      && thread < |s.threads| && Wants(s.threads[thread], segment)
      && t == Attempted(s, thread, segment, opens, metadata)
    case Release(thread) =>
      && thread < |s.threads| && s.threads[thread].Reading?
      && var i := s.threads[thread].segment;
         && i < |s.pool.leases| && s.pool.leases[i] > 0
         && t == System(s.pool.(leases := s.pool.leases[i := s.pool.leases[i] - 1]), s.threads[thread := Releasing])
    case Notify(thread, woken) =>
      && thread < |s.threads| && s.threads[thread].Releasing?
      && (match woken
          case None =>
            && (forall w | 0 <= w < |s.threads| :: !s.threads[w].Asleep?)
            && t == s.(threads := s.threads[thread := Quiet])
          case Some(w) =>
            && w < |s.threads| && s.threads[w].Asleep?
            && t == s.(threads := s.threads[thread := Quiet][w := Woken(s.threads[w].segment)]))
    case Spurious(thread) =>
      && thread < |s.threads| && s.threads[thread].Asleep?
      && t == s.(threads := s.threads[thread := Woken(s.threads[thread].segment)])
    case Borrow(segment, opens) => t == s.(pool := FileMut(s.pool, segment, opens).0)
    case Resize(maximum) => t == s.(pool := SetMaximum(s.pool, maximum).0)
  }

  ghost predicate Initial(s: System) {
    && ValidPool(s.pool)
    && (forall i <- s.pool.leases :: i == 0)
    && (forall t <- s.threads :: t.Quiet?)
  }

  ghost predicate IsRun(run: seq<System>, actions: seq<Action>) {
    && |run| == |actions| + 1
    && Initial(run[0])
    && forall k | 0 <= k < |actions| :: Next(run[k], actions[k], run[k + 1])
  }

  // ---------------------------------------------------------------- safety

  predicate Reads(t: Thread, segment: nat) { t.Reading? && t.segment == segment }

  function Readers(threads: seq<Thread>, segment: nat): nat {
    if threads == [] then 0
    else Readers(threads[..|threads| - 1], segment) + (if Reads(threads[|threads| - 1], segment) then 1 else 0)
  }

  lemma {:induction false} ReadersAfterUpdate(threads: seq<Thread>, i: nat, t: Thread, segment: nat)
    requires i < |threads|
    ensures Readers(threads[i := t], segment) + (if Reads(threads[i], segment) then 1 else 0)
            == Readers(threads, segment) + (if Reads(t, segment) then 1 else 0)
  {
    var n := |threads| - 1;
    if i < n {
      ReadersAfterUpdate(threads[..n], i, t, segment);
      assert threads[i := t][..n] == threads[..n][i := t];
    } else {
      assert threads[i := t][..n] == threads[..n];
    }
  }

  lemma {:induction false} SomeReader(threads: seq<Thread>, segment: nat)
    requires Readers(threads, segment) > 0
    ensures exists t <- threads :: Reads(t, segment)
  {
    var n := |threads| - 1;
    if Reads(threads[n], segment) {
      assert threads[n] in threads;
    } else {
      SomeReader(threads[..n], segment);
      var t :| t in threads[..n] && Reads(t, segment);
    }
  }

  lemma {:induction false} NoReaders(threads: seq<Thread>, segment: nat)
    requires forall t <- threads :: t.Quiet?
    ensures Readers(threads, segment) == 0
  {
    if threads != [] {
      NoReaders(threads[..|threads| - 1], segment);
      assert threads[|threads| - 1] in threads;
    }
  }

  /** The counts of clones are the active reads, and each read's own handle is the open one. */
  ghost predicate Leases(s: System) {
    && |s.pool.leases| == |s.pool.files|
    && (forall i | 0 <= i < |s.pool.leases| :: s.pool.leases[i] == Readers(s.threads, i))
    && (forall t | 0 <= t < |s.threads| && s.threads[t].Reading? ::
          s.threads[t].segment < |s.pool.files| && s.pool.files[s.threads[t].segment] == Some(s.threads[t].handle))
  }

  ghost predicate Safe(s: System) {
    ValidPool(s.pool) && Leases(s)
  }

  lemma ReadersAllTheSame(threads: seq<Thread>, i: nat, t: Thread)
    requires i < |threads| && !threads[i].Reading? && !t.Reading?
    ensures forall segment :: Readers(threads[i := t], segment) == Readers(threads, segment)
  {
    forall segment ensures Readers(threads[i := t], segment) == Readers(threads, segment) {
      ReadersAfterUpdate(threads, i, t, segment);
    }
  }

  /** A thread that reads a segment makes its lease count positive. */
  lemma {:induction false} ReaderCounts(threads: seq<Thread>, t: nat)
    requires t < |threads| && threads[t].Reading?
    ensures Readers(threads, threads[t].segment) > 0
  {
    if t < |threads| - 1 { ReaderCounts(threads[..|threads| - 1], t); }
  }

  /** Changing the pool without touching leased handles keeps the leases right. */
  lemma PoolChangeKeepsLeases(s: System, pool: Pool)
    requires Safe(s) && LeasesHeld(s.pool, pool)
    ensures Leases(s.(pool := pool))
  {
    forall t | 0 <= t < |s.threads| && s.threads[t].Reading?
      ensures pool.files[s.threads[t].segment] == Some(s.threads[t].handle)
    {
      ReaderCounts(s.threads, t);
    }
  }

  lemma AttemptKeepsSafe(s: System, thread: nat, segment: nat, opens: bool, metadata: bool)
    requires Safe(s) && thread < |s.threads| && Wants(s.threads[thread], segment)
    ensures Safe(Attempted(s, thread, segment, opens, metadata))
  {
    var (pool, r) := Acquire(s.pool, segment, opens);
    AcquireKeepsValid(s.pool, segment, opens);
    PoolChangeKeepsLeases(s, pool);
    var t := Attempted(s, thread, segment, opens, metadata);
    forall i ensures Readers(t.threads, i) == Readers(s.threads, i) + (if Reads(t.threads[thread], i) then 1 else 0) {
      ReadersAfterUpdate(s.threads, thread, t.threads[thread], i);
    }
  }

  lemma ReleaseKeepsSafe(s: System, thread: nat, t: System)
    requires Safe(s) && Next(s, Release(thread), t)
    ensures Safe(t)
  {
    forall i ensures Readers(t.threads, i) + (if Reads(s.threads[thread], i) then 1 else 0) == Readers(s.threads, i) {
      ReadersAfterUpdate(s.threads, thread, Releasing, i);
    }
  }

  lemma NotifyKeepsSafe(s: System, thread: nat, woken: Option<nat>, t: System)
    requires Safe(s) && Next(s, Notify(thread, woken), t)
    ensures Safe(t)
  {
    ReadersAllTheSame(s.threads, thread, Quiet);
    if woken.Some? {
      ReadersAllTheSame(s.threads[thread := Quiet], woken.value, Woken(s.threads[woken.value].segment));
    }
  }

  /** Every step keeps the open count within the limit, the order exact, and leases right. */
  lemma StepKeepsSafe(s: System, a: Action, t: System)
    requires Safe(s) && Next(s, a, t)
    ensures Safe(t)
  {
    match a
    case Attempt(thread, segment, opens, metadata) => AttemptKeepsSafe(s, thread, segment, opens, metadata);
    case Release(thread) => ReleaseKeepsSafe(s, thread, t);
    case Notify(thread, woken) => NotifyKeepsSafe(s, thread, woken, t);
    case Spurious(thread) => ReadersAllTheSame(s.threads, thread, Woken(s.threads[thread].segment));
    case Borrow(segment, opens) => {
      FileMutKeepsValid(s.pool, segment, opens);
      PoolChangeKeepsLeases(s, t.pool);
    }
    case Resize(maximum) => {
      SetMaximumKeepsValid(s.pool, maximum);
      PoolChangeKeepsLeases(s, t.pool);
    }
  }

  lemma {:induction false} EveryRunIsSafe(run: seq<System>, actions: seq<Action>, k: nat)
    requires IsRun(run, actions) && k < |run|
    ensures Safe(run[k])
  {
    if k == 0 {
      forall i | 0 <= i < |run[0].pool.leases| ensures run[0].pool.leases[i] == Readers(run[0].threads, i) {
        NoReaders(run[0].threads, i);
        assert run[0].pool.leases[i] in run[0].pool.leases;
      }
      assert forall t | 0 <= t < |run[0].threads| :: run[0].threads[t] in run[0].threads;
    } else {
      EveryRunIsSafe(run, actions, k - 1);
      StepKeepsSafe(run[k - 1], actions[k - 1], run[k]);
    }
  }

  /** The limit holds and no active read ever loses its handle, at every point of every run. */
  lemma LimitHoldsAndReadersKeepTheirHandles(run: seq<System>, actions: seq<Action>, k: nat)
    requires IsRun(run, actions) && k < |run|
    ensures var p := run[k].pool;
            && (p.maximum.Some? ==> OpenCount(p.files) <= p.maximum.value)
            && OpenCount(p.files) == |p.order| && Distinct(p.order)
            && (forall i: nat :: i in p.order <==> i < |p.files| && p.files[i].Some?)
            && (forall t | 0 <= t < |run[k].threads| && run[k].threads[t].Reading? ::
                  run[k].threads[t].segment < |p.files|
                      && p.files[run[k].threads[t].segment] == Some(run[k].threads[t].handle))
  {
    EveryRunIsSafe(run, actions, k);
    OpenCountIsOrderLength(run[k].pool.files, run[k].pool.order);
  }

  // ---------------------------------------------------------------- wake-ups

  predicate Stirring(t: Thread) { t.Reading? || t.Releasing? || t.Woken? }

  /** A sleeper can count on a lease, a releaser about to notify, or a woken thread. */
  ghost predicate NoLostWakeup(s: System) {
    (exists t <- s.threads :: t.Asleep?) ==> exists t <- s.threads :: Stirring(t)
  }

  /** The attempt returns an error unless it has to wait: the pool cannot lease, there is no
      such segment, or the open or the metadata call fails. */
  predicate AttemptErrs(s: System, a: Action) {
    && a.Attempt?
    && (s.pool.supplied || a.segment >= |s.pool.files| || !a.metadata || (s.pool.files[a.segment].None? && !a.opens))
  }

  /** Some other thread sleeps, and the attempting thread is the only one that could wake it. */
  predicate LastHope(s: System, a: Action) {
    && a.Attempt? && a.thread < |s.threads| && s.threads[a.thread].Woken?
    && (exists j: nat :: j < |s.threads| && j != a.thread && s.threads[j].Asleep?)
    && (forall j: nat | j < |s.threads| && j != a.thread :: !Stirring(s.threads[j]))
  }

  lemma StirringElsewhere(threads: seq<Thread>, threads': seq<Thread>, i: nat)
    requires |threads| == |threads'| && i < |threads| && !Stirring(threads[i])
    requires forall j | 0 <= j < |threads| && j != i && Stirring(threads[j]) :: Stirring(threads'[j])
    requires exists t <- threads :: Stirring(t)
    ensures exists t <- threads' :: Stirring(t)
  {
    var j :| 0 <= j < |threads| && Stirring(threads[j]);
    assert threads'[j] in threads';
  }

  /** Going to sleep means the limit's worth of handles are all being read. */
  lemma BusyMeansReader(s: System, segment: nat, opens: bool)
    requires Safe(s) && Acquire(s.pool, segment, opens).1.Busy?
    ensures exists j | 0 <= j < |s.threads| :: s.threads[j].Reading?
  {
    AcquireKeepsValid(s.pool, segment, opens);
    var q := Acquire(s.pool, segment, opens).0;
    assert q.order[0] in q.order;
    SomeReader(s.threads, q.order[0]);
    var t :| t in s.threads && Reads(t, q.order[0]);
  }

  lemma AttemptKeepsWakeup(s: System, a: Action, t: System)
    requires Safe(s) && NoLostWakeup(s) && Next(s, a, t) && a.Attempt? && !(AttemptErrs(s, a) && LastHope(s, a))
    ensures NoLostWakeup(t)
  {
    var (pool, r) := Acquire(s.pool, a.segment, a.opens);
    AcquireKeepsValid(s.pool, a.segment, a.opens);
    AcquireByCases(s.pool, a.segment, a.opens);
    hide Acquire, Shrink, ValidPool;
    if r.Busy? {
      BusyMeansReader(s, a.segment, a.opens);
      var j :| 0 <= j < |s.threads| && s.threads[j].Reading?;
      assert j != a.thread && t.threads[j] == s.threads[j] && t.threads[j] in t.threads;
    } else if !AttemptErrs(s, a) {
      assert t.threads[a.thread] in t.threads && Stirring(t.threads[a.thread]);
    } else if exists u <- t.threads :: u.Asleep? {
      var k :| 0 <= k < |t.threads| && t.threads[k].Asleep?;
      assert s.threads[k] in s.threads;
      if !s.threads[a.thread].Woken? {
        StirringElsewhere(s.threads, t.threads, a.thread);
      } else {
        var j: nat :| j < |s.threads| && j != a.thread && Stirring(s.threads[j]);
        assert t.threads[j] == s.threads[j] && t.threads[j] in t.threads;
      }
    }
  }

  /** The error of a last hope leaves its sleeper with nobody: it finds a handle or fails, but
      never waits, as nobody reads. */
  lemma LastHopeForgets(s: System, a: Action, t: System)
    requires Safe(s) && Next(s, a, t) && AttemptErrs(s, a) && LastHope(s, a)
    ensures !NoLostWakeup(t)
  {
    AcquireByCases(s.pool, a.segment, a.opens);
    if Acquire(s.pool, a.segment, a.opens).1.Busy? { BusyMeansReader(s, a.segment, a.opens); }
    hide Acquire, Shrink, ValidPool;
    assert t.threads == s.threads[a.thread := Quiet];
    var j: nat :| j < |s.threads| && j != a.thread && s.threads[j].Asleep?;
    assert t.threads[j] in t.threads;
    assert forall k | 0 <= k < |t.threads| :: !Stirring(t.threads[k]);
  }

  lemma WakingKeepsWakeup(s: System, a: Action, t: System)
    requires NoLostWakeup(s) && Next(s, a, t) && (a.Release? || a.Notify? || a.Spurious?)
    ensures NoLostWakeup(t)
  {
    if a.Release? || a.Spurious? {
      assert t.threads[a.thread] in t.threads && Stirring(t.threads[a.thread]);
    } else if a.woken.Some? {
      assert t.threads[a.woken.value] in t.threads && Stirring(t.threads[a.woken.value]);
    } else {
      assert forall k | 0 <= k < |t.threads| :: !t.threads[k].Asleep?;
    }
  }

  /** A step forgets a sleeper exactly when it is the failed attempt of its last hope. */
  lemma StepForgetsExactlyWhen(s: System, a: Action, t: System)
    requires Safe(s) && NoLostWakeup(s) && Next(s, a, t)
    ensures NoLostWakeup(t) <==> !(AttemptErrs(s, a) && LastHope(s, a))
  {
    hide *;
    if AttemptErrs(s, a) && LastHope(s, a) {
      LastHopeForgets(s, a, t);
    } else if a.Attempt? {
      AttemptKeepsWakeup(s, a, t);
    } else if a.Release? || a.Notify? || a.Spurious? {
      WakingKeepsWakeup(s, a, t);
    } else {
      SameThreads(s, a, t);
    }
  }

  lemma SameThreads(s: System, a: Action, t: System)
    requires Next(s, a, t) && NoLostWakeup(s) && (a.Borrow? || a.Resize?)
    ensures NoLostWakeup(t)
  {}

  /** No sleeper is ever forgotten in a run exactly when no last hope's attempt ever fails. */
  lemma {:induction false} SleepersAreNeverForgotten(run: seq<System>, actions: seq<Action>, k: nat)
    requires IsRun(run, actions) && k < |run|
    ensures (forall j | 0 <= j <= k :: NoLostWakeup(run[j]))
            <==> (forall j | 0 <= j < k :: !(AttemptErrs(run[j], actions[j]) && LastHope(run[j], actions[j])))
  {
    if k == 0 {
      NobodySleeps(run[0]);
    } else {
      hide Next, NoLostWakeup, AttemptErrs, LastHope;
      SleepersAreNeverForgotten(run, actions, k - 1);
      EveryRunIsSafe(run, actions, k - 1);
      if NoLostWakeup(run[k - 1]) { StepForgetsExactlyWhen(run[k - 1], actions[k - 1], run[k]); }
    }
  }

  lemma NobodySleeps(s: System)
    requires Initial(s)
    ensures NoLostWakeup(s)
  {}

  // With limit one, a reader releases and wakes one of two sleepers, whose open fails; the
  // error return does not notify, so the other sleeps with nothing left to wake it.

  function LimitOne(file0: Option<Handle>, lease0: nat, next: Handle): Pool {
    Pool([file0, None], [lease0, 0], if file0.Some? then [0] else [], Some(1), false, next)
  }

  const FORGETTING_RUN: seq<System> := [
    System(LimitOne(None, 0, 0), [Quiet, Quiet, Quiet]),
    System(LimitOne(Some(0), 1, 1), [Reading(0, 0), Quiet, Quiet]),
    System(LimitOne(Some(0), 1, 1), [Reading(0, 0), Asleep(1), Quiet]),
    System(LimitOne(Some(0), 1, 1), [Reading(0, 0), Asleep(1), Asleep(1)]),
    System(LimitOne(Some(0), 0, 1), [Releasing, Asleep(1), Asleep(1)]),
    System(LimitOne(Some(0), 0, 1), [Quiet, Woken(1), Asleep(1)]),
    System(LimitOne(None, 0, 1), [Quiet, Quiet, Asleep(1)])]

  const FORGETTING_ACTIONS: seq<Action> := [
    Attempt(0, 0, true, true), Attempt(1, 1, true, true), Attempt(2, 1, true, true), Release(0), Notify(0, Some(1)),
    Attempt(1, 1, false, true)]

  lemma ForgettingFirstSteps(k: nat)
    requires k < 3
    ensures Next(FORGETTING_RUN[k], FORGETTING_ACTIONS[k], FORGETTING_RUN[k + 1])
  {
    var p := LimitOne(Some(0), 1, 1);
    assert FirstIdle(p, 1) == 1;
    assert FirstIdle(p, 0) == 1;
    assert Shrink(p, 0) == p;
    assert Shrink(LimitOne(None, 0, 0), 0) == LimitOne(None, 0, 0);
    assert Without([], 0) == [];
  }

  lemma ForgettingLastSteps(k: nat)
    requires 3 <= k < 6
    ensures Next(FORGETTING_RUN[k], FORGETTING_ACTIONS[k], FORGETTING_RUN[k + 1])
  {
    var p, q := LimitOne(Some(0), 0, 1), LimitOne(None, 0, 1);
    assert FirstIdle(p, 0) == 0;
    assert CloseAt(p, 0) == q;
    assert Shrink(q, 0) == q;
    assert Shrink(p, 0) == q;
  }

  lemma ForgettingStarts()
    ensures |FORGETTING_RUN| == 7 && |FORGETTING_ACTIONS| == 6 && Initial(FORGETTING_RUN[0])
  {}

  lemma ForgettingEnds()
    ensures |FORGETTING_RUN| == 7 && !NoLostWakeup(FORGETTING_RUN[6])
  {
    assert FORGETTING_RUN[6].threads[2] in FORGETTING_RUN[6].threads;
  }

  lemma ForgettingIsLastHope()
    ensures AttemptErrs(FORGETTING_RUN[5], FORGETTING_ACTIONS[5]) && LastHope(FORGETTING_RUN[5], FORGETTING_ACTIONS[5])
  {
    assert FORGETTING_RUN[5].threads[2].Asleep?;
  }

  lemma FailedOpenForgetsSleeper()
    ensures IsRun(FORGETTING_RUN, FORGETTING_ACTIONS)
    ensures AttemptErrs(FORGETTING_RUN[5], FORGETTING_ACTIONS[5]) && LastHope(FORGETTING_RUN[5], FORGETTING_ACTIONS[5])
    ensures !NoLostWakeup(FORGETTING_RUN[6])
  {
    hide Next, NoLostWakeup, AttemptErrs, LastHope, Initial;
    ForgettingStarts();
    ForgettingEnds();
    ForgettingIsLastHope();
    forall k | 0 <= k < 6 ensures Next(FORGETTING_RUN[k], FORGETTING_ACTIONS[k], FORGETTING_RUN[k + 1]) {
      if k < 3 { ForgettingFirstSteps(k); } else { ForgettingLastSteps(k); }
    }
  }
}
