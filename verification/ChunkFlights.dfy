/** Single-flight decoding behind the chunk cache (src/image.rs, `read_chunk`): every
    interleaving of any number of threads, one lock acquisition or decode per step. */
module ChunkFlights {
  import opened Basics

  type ChunkId = nat
  type FlightId = nat

  /** `Missed` saw no cached value; the thread that inserts a flight owns it and goes through
      `Decoding`, `Inserting` if that succeeds, `Decoded` and `Completed`; others wait for it and start over. */
  datatype Thread =
    | Quiet
    | Checking(id: ChunkId)
    | Missed(id: ChunkId)
    | Waiting(id: ChunkId, flight: FlightId)
    | Sleeping(id: ChunkId, flight: FlightId)
    | Decoding(id: ChunkId, flight: FlightId)
    | Inserting(id: ChunkId, flight: FlightId, value: Bytes)
    | Decoded(id: ChunkId, flight: FlightId, result: Result<Bytes>)
    | Completed(id: ChunkId, flight: FlightId, result: Result<Bytes>)
    | Returned(id: ChunkId, result: Result<Bytes>)

  /** `id` and `owner` record who created the flight. */
  datatype Flight = Flight(id: ChunkId, owner: nat, complete: bool)

  /** `media` is the pure decoding of every decodable chunk. */
  datatype System = System(
    media: map<ChunkId, Bytes>,
    cache: map<ChunkId, Bytes>,
    inFlight: map<ChunkId, FlightId>,
    flights: seq<Flight>,
    threads: seq<Thread>)
  {
    function Set(t: nat, thread: Thread): System
      requires t < |threads|
    {
      this.(threads := threads[t := thread])
    }
  }

  datatype Action =
    | Request(t: nat, id: ChunkId)
    | CheckCache(t: nat)
    | JoinOrStart(t: nat)
    | CheckComplete(t: nat)
    | SpuriousWake(t: nat)
    | DecodeOk(t: nat)
    | Insert(t: nat, evicted: set<ChunkId>)
    | DecodeFails(t: nat)
    | Complete(t: nat)
    | Retire(t: nat)
    | Evict(id: ChunkId)

  /** The owner wakes everyone asleep on its flight. */
  function WakeAll(threads: seq<Thread>, flight: FlightId): (r: seq<Thread>)
    ensures |r| == |threads|
    ensures forall i | 0 <= i < |r| ::
              r[i] == if threads[i].Sleeping? && threads[i].flight == flight then Waiting(threads[i].id, flight)
                  else threads[i]
  {
    seq(|threads|, i requires 0 <= i < |threads| =>
      if threads[i].Sleeping? && threads[i].flight == flight then Waiting(threads[i].id, flight) else threads[i])
  }

  ghost predicate Next(s: System, a: Action, n: System) {
    if a.Evict? then n == s.(cache := s.cache - {a.id})
    else
      && a.t < |s.threads|
      && var thread := s.threads[a.t];
         match a
         case Request(t, id) => (thread.Quiet? || thread.Returned?) && n == s.Set(t, Checking(id))
         case CheckCache(t) =>
           && thread.Checking?
           && n == s.Set(t, if thread.id in s.cache then Returned(thread.id, Ok(s.cache[thread.id]))
                         else Missed(thread.id))
         case JoinOrStart(t) =>
           && thread.Missed?
           && (if thread.id in s.inFlight then n == s.Set(t, Waiting(thread.id, s.inFlight[thread.id]))
               else n == s.Set(t, Decoding(thread.id, |s.flights|))
                         .(inFlight := s.inFlight[thread.id := |s.flights|],
                           flights := s.flights + [Flight(thread.id, t, false)]))
         case CheckComplete(t) =>
           && thread.Waiting? && thread.flight < |s.flights|
           && n == s.Set(t, if s.flights[thread.flight].complete then Checking(thread.id)
                         else Sleeping(thread.id, thread.flight))
         case SpuriousWake(t) => thread.Sleeping? && n == s.Set(t, Waiting(thread.id, thread.flight))
         case DecodeOk(t) =>
           && thread.Decoding? && thread.id in s.media
           && n == s.Set(t, Inserting(thread.id, thread.flight, s.media[thread.id]))
         case Insert(t, evicted) =>
           && thread.Inserting?
           && n == s.Set(t, Decoded(thread.id, thread.flight, Ok(thread.value)))
                   .(cache := s.cache[thread.id := thread.value] - evicted)
         case DecodeFails(t) => thread.Decoding? && n == s.Set(t, Decoded(thread.id, thread.flight, Err))
         case Complete(t) =>
           && thread.Decoded? && thread.flight < |s.flights|
           && n == s.(flights := s.flights[thread.flight := s.flights[thread.flight].(complete := true)],
                      threads := WakeAll(s.threads, thread.flight)
                                   [t := Completed(thread.id, thread.flight, thread.result)])
         case Retire(t) =>
           thread.Completed? && n == s.Set(t, Returned(thread.id, thread.result)).(inFlight := s.inFlight - {thread.id})
  }

  ghost predicate Initial(s: System) {
    s.cache == map[] && s.inFlight == map[] && s.flights == [] && forall t <- s.threads :: t.Quiet?
  }

  ghost predicate IsRun(run: seq<System>, actions: seq<Action>) {
    && |run| == |actions| + 1
    && Initial(run[0])
    && forall k | 0 <= k < |actions| :: Next(run[k], actions[k], run[k + 1])
  }

  // ---------------------------------------------------------------- the invariant

  predicate Owns(thread: Thread) { thread.Decoding? || thread.Inserting? || thread.Decoded? || thread.Completed? }

  /** An owner that has yet to complete its flight. */
  predicate Unfinished(thread: Thread, id: ChunkId, flight: FlightId) {
    (thread.Decoding? || thread.Inserting? || thread.Decoded?) && thread.id == id && thread.flight == flight
  }

  predicate Correct(media: map<ChunkId, Bytes>, id: ChunkId, result: Result<Bytes>) {
    result.Ok? ==> id in media && result.value == media[id]
  }

  ghost predicate ThreadInv(s: System, t: nat)
    requires t < |s.threads|
  {
    var thread := s.threads[t];
    && (Owns(thread) ==>
          && thread.id in s.inFlight && s.inFlight[thread.id] == thread.flight
          && thread.flight < |s.flights|
          && s.flights[thread.flight] == Flight(thread.id, t, thread.Completed?))
    && (thread.Waiting? || thread.Sleeping? ==>
          && thread.flight < |s.flights| && s.flights[thread.flight].id == thread.id
          && (thread.Sleeping? ==> !s.flights[thread.flight].complete))
    && (thread.Inserting? ==> thread.id in s.media && thread.value == s.media[thread.id])
    && (thread.Decoded? || thread.Completed? || thread.Returned? ==> Correct(s.media, thread.id, thread.result))
  }

  ghost predicate Inv(s: System) {
    && (forall id <- s.cache :: id in s.media && s.cache[id] == s.media[id])
    && (forall f | 0 <= f < |s.flights| && !s.flights[f].complete ::
          s.flights[f].owner < |s.threads| && Unfinished(s.threads[s.flights[f].owner], s.flights[f].id, f))
    && (forall id <- s.inFlight ::
          && s.inFlight[id] < |s.flights|
          && var flight := s.flights[s.inFlight[id]];
             flight.id == id && flight.owner < |s.threads|
             && Owns(s.threads[flight.owner]) && s.threads[flight.owner].id == id
                 && s.threads[flight.owner].flight == s.inFlight[id])
    && (forall t | 0 <= t < |s.threads| :: ThreadInv(s, t))
  }

  lemma CompleteKeepsInv(s: System, t: nat, n: System)
    requires Inv(s) && Next(s, Complete(t), n)
    ensures Inv(n)
  {
    forall u | 0 <= u < |n.threads| ensures ThreadInv(n, u) {
      assert ThreadInv(s, u);
      assert ThreadInv(s, t);
    }
  }

  /** A thread that owns no flight, before or after, moves on its own. */
  lemma MoveKeepsInv(s: System, t: nat, thread: Thread)
    requires Inv(s) && t < |s.threads| && !Owns(s.threads[t]) && !Owns(thread)
    requires ThreadInv(s.Set(t, thread), t)
    ensures Inv(s.Set(t, thread))
  {
    var n := s.Set(t, thread);
    forall u | 0 <= u < |n.threads| ensures ThreadInv(n, u) {
      if u != t { assert ThreadInv(s, u); }
    }
  }

  lemma StartKeepsInv(s: System, t: nat, n: System)
    requires Inv(s) && Next(s, JoinOrStart(t), n)
    ensures Inv(n)
  {
    var id := s.threads[t].id;
    assert ThreadInv(s, t);
    if id in s.inFlight {
      MoveKeepsInv(s, t, n.threads[t]);
    } else {
      hide Correct;
      assert n.flights == s.flights + [Flight(id, t, false)];
      forall u | 0 <= u < |n.threads| ensures ThreadInv(n, u) {
        if u != t { assert ThreadInv(s, u); }
      }
    }
  }

  lemma RetireKeepsInv(s: System, t: nat, n: System)
    requires Inv(s) && Next(s, Retire(t), n)
    ensures Inv(n)
  {
    assert ThreadInv(s, t);
    forall u | 0 <= u < |n.threads| ensures ThreadInv(n, u) {
      assert ThreadInv(s, u);
    }
  }

  lemma MoveStepKeepsInv(s: System, a: Action, n: System)
    requires Inv(s) && Next(s, a, n) && (a.Request? || a.CheckCache? || a.CheckComplete? || a.SpuriousWake?)
    ensures Inv(n)
  {
    assert ThreadInv(s, a.t);
    MoveKeepsInv(s, a.t, n.threads[a.t]);
  }

  /** An owner that has yet to complete its flight goes on with it. */
  lemma OwnerMovesOn(s: System, t: nat, thread: Thread)
    requires Inv(s) && t < |s.threads| && ThreadInv(s.Set(t, thread), t)
    requires var was := s.threads[t];
             Owns(was) && Unfinished(was, was.id, was.flight) && Unfinished(thread, was.id, was.flight)
    ensures Inv(s.Set(t, thread))
  {
    var n := s.Set(t, thread);
    forall u | 0 <= u < |n.threads| ensures ThreadInv(n, u) {
      if u != t { assert ThreadInv(s, u); }
    }
  }

  lemma CacheKeepsInv(s: System, cache: map<ChunkId, Bytes>)
    requires Inv(s) && forall id <- cache :: id in s.media && cache[id] == s.media[id]
    ensures Inv(s.(cache := cache))
  {
    var n := s.(cache := cache);
    forall u | 0 <= u < |n.threads| ensures ThreadInv(n, u) {
      assert ThreadInv(s, u);
    }
  }

  lemma DecodeKeepsInv(s: System, a: Action, n: System)
    requires Inv(s) && Next(s, a, n) && (a.DecodeOk? || a.Insert? || a.DecodeFails?)
    ensures Inv(n)
  {
    assert ThreadInv(s, a.t);
    OwnerMovesOn(s, a.t, n.threads[a.t]);
    hide Inv, ThreadInv;
    CachedIsDecoded(s);
    if a.Insert? { InsertedIsDecoded(s, a.t); }
    CacheKeepsInv(s.Set(a.t, n.threads[a.t]), n.cache);
  }

  lemma CachedIsDecoded(s: System)
    requires Inv(s)
    ensures forall id <- s.cache :: id in s.media && s.cache[id] == s.media[id]
  {}

  lemma InsertedIsDecoded(s: System, t: nat)
    requires Inv(s) && t < |s.threads| && s.threads[t].Inserting?
    ensures s.threads[t].id in s.media && s.threads[t].value == s.media[s.threads[t].id]
  {
    assert ThreadInv(s, t);
  }

  lemma EvictKeepsInv(s: System, id: ChunkId, n: System)
    requires Inv(s) && Next(s, Evict(id), n)
    ensures Inv(n)
  {
    CacheKeepsInv(s, n.cache);
  }

  lemma StepKeepsInv(s: System, a: Action, n: System)
    requires Inv(s) && Next(s, a, n)
    ensures Inv(n)
  {
    if a.Complete? { CompleteKeepsInv(s, a.t, n); }
    else if a.JoinOrStart? { StartKeepsInv(s, a.t, n); }
    else if a.Retire? { RetireKeepsInv(s, a.t, n); }
    else if a.DecodeOk? || a.Insert? || a.DecodeFails? { DecodeKeepsInv(s, a, n); }
    else if a.Evict? { EvictKeepsInv(s, a.id, n); }
    else { MoveStepKeepsInv(s, a, n); }
  }

  lemma {:induction false} EveryRunKeepsInv(run: seq<System>, actions: seq<Action>, k: nat)
    requires IsRun(run, actions) && k < |run|
    ensures Inv(run[k])
    ensures run[k].media == run[0].media
  {
    if k == 0 {
      forall t | 0 <= t < |run[0].threads| ensures ThreadInv(run[0], t) {
        assert run[0].threads[t] in run[0].threads;
      }
    } else {
      EveryRunKeepsInv(run, actions, k - 1);
      StepKeepsInv(run[k - 1], actions[k - 1], run[k]);
    }
  }

  // ---------------------------------------------------------------- what it promises

  /** At most one thread at a time decodes a given chunk. */
  lemma OneDecoderPerChunk(run: seq<System>, actions: seq<Action>, k: nat, t: nat, u: nat)
    requires IsRun(run, actions) && k < |run| && t < |run[k].threads| && u < |run[k].threads|
    requires Owns(run[k].threads[t]) && Owns(run[k].threads[u]) && run[k].threads[t].id == run[k].threads[u].id
    ensures t == u
  {
    EveryRunKeepsInv(run, actions, k);
    assert ThreadInv(run[k], t) && ThreadInv(run[k], u);
  }

  /** A blocked waiter's flight has an owner that has yet to complete it, so it will be woken. */
  lemma SleepersHaveAnOwner(run: seq<System>, actions: seq<Action>, k: nat, t: nat)
    requires IsRun(run, actions) && k < |run| && t < |run[k].threads| && run[k].threads[t].Sleeping?
    ensures exists u | 0 <= u < |run[k].threads| ::
              u != t && Unfinished(run[k].threads[u], run[k].threads[t].id, run[k].threads[t].flight)
  {
    EveryRunKeepsInv(run, actions, k);
    assert ThreadInv(run[k], t);
  }

  /** Whatever was evicted or failed meanwhile, a cached or successfully returned value is the
      pure decoding of its chunk. */
  lemma ValuesAreTheDecoding(run: seq<System>, actions: seq<Action>, k: nat)
    requires IsRun(run, actions) && k < |run|
    ensures forall id <- run[k].cache :: id in run[0].media && run[k].cache[id] == run[0].media[id]
    ensures forall t | 0 <= t < |run[k].threads| && run[k].threads[t].Returned? ::
              Correct(run[0].media, run[k].threads[t].id, run[k].threads[t].result)
  {
    EveryRunKeepsInv(run, actions, k);
    forall t | 0 <= t < |run[k].threads| && run[k].threads[t].Returned?
      ensures Correct(run[0].media, run[k].threads[t].id, run[k].threads[t].result)
    {
      assert ThreadInv(run[k], t);
    }
  }

  // ---------------------------------------------------------------- when a read may fail

  predicate Failing(thread: Thread) {
    (thread.Decoded? || thread.Completed? || thread.Returned?) && thread.result.Err?
  }

  predicate Requests(a: Action, t: nat) { a.Request? && a.t == t }

  /** In the read it is in, or the one it returned from, thread `t` has itself failed to decode
      the chunk it asked for. */
  ghost predicate FailedItself(run: seq<System>, actions: seq<Action>, k: nat, t: nat)
    requires IsRun(run, actions) && k < |run| && t < |run[k].threads|
  {
    exists j | 0 <= j < k ::
      && actions[j] == DecodeFails(t)
      && t < |run[j].threads| && run[j].threads[t].Decoding? && !run[k].threads[t].Quiet?
      && run[j].threads[t].id == run[k].threads[t].id
      && forall m | j < m < k :: !Requests(actions[m], t)
  }

  lemma StepKeepsFailing(s: System, a: Action, n: System, t: nat)
    requires Next(s, a, n) && t < |n.threads|
    ensures t < |s.threads|
    ensures Requests(a, t) ==> !Failing(n.threads[t])
    ensures a == DecodeFails(t) ==>
              s.threads[t].Decoding? && Failing(n.threads[t]) && n.threads[t].id == s.threads[t].id
    ensures !Requests(a, t) && a != DecodeFails(t) ==>
              && (Failing(n.threads[t]) <==> Failing(s.threads[t]))
              && (s.threads[t].Quiet? <==> n.threads[t].Quiet?)
              && (!s.threads[t].Quiet? ==> n.threads[t].id == s.threads[t].id)
  {
  }

  lemma FailureGoesOn(run: seq<System>, actions: seq<Action>, k: nat, t: nat)
    requires IsRun(run, actions) && 0 < k < |run| && t < |run[k].threads| && t < |run[k - 1].threads|
    requires !Requests(actions[k - 1], t) && actions[k - 1] != DecodeFails(t)
    ensures FailedItself(run, actions, k, t) <==> FailedItself(run, actions, k - 1, t)
  {
    assert Next(run[k - 1], actions[k - 1], run[k]);
    StepKeepsFailing(run[k - 1], actions[k - 1], run[k], t);
  }

  /** A read fails exactly when its own thread failed to decode: nobody inherits the error of
      another thread's flight, and a chunk that was decoded is never reported as an error. */
  lemma {:induction false} ErrorsAreOnesOwn(run: seq<System>, actions: seq<Action>, k: nat, t: nat)
    requires IsRun(run, actions) && k < |run| && t < |run[k].threads|
    ensures Failing(run[k].threads[t]) <==> FailedItself(run, actions, k, t)
  {
    if k == 0 {
      assert run[0].threads[t] in run[0].threads;
    } else {
      var s, a, n := run[k - 1], actions[k - 1], run[k];
      assert Next(s, a, n);
      StepKeepsFailing(s, a, n, t);
      hide Next, Failing, IsRun;
      if !Requests(a, t) && a != DecodeFails(t) {
        ErrorsAreOnesOwn(run, actions, k - 1, t);
        FailureGoesOn(run, actions, k, t);
      }
    }
  }

  /** A finished read whose own decoding did not fail has the decoding of its chunk. */
  lemma ReadsSucceedUnlessTheyFail(run: seq<System>, actions: seq<Action>, k: nat, t: nat)
    requires IsRun(run, actions) && k < |run| && t < |run[k].threads| && run[k].threads[t].Returned?
    ensures var thread := run[k].threads[t];
            if FailedItself(run, actions, k, t) then thread.result == Err
            else thread.id in run[0].media && thread.result == Ok(run[0].media[thread.id])
  {
    ErrorsAreOnesOwn(run, actions, k, t);
    ValuesAreTheDecoding(run, actions, k);
  }

  predicate Evicts(a: Action, id: ChunkId) {
    (a.Evict? && a.id == id) || (a.Insert? && id in a.evicted)
  }

  /** A decoded chunk stays cached until it is evicted; till then it is read without decoding. */
  lemma {:induction false} InsertedIsCached(run: seq<System>, actions: seq<Action>, j: nat, k: nat, id: ChunkId)
    requires IsRun(run, actions) && j < k < |run|
    requires actions[j].Insert? && actions[j].t < |run[j].threads| && run[j].threads[actions[j].t].Inserting?
    requires run[j].threads[actions[j].t].id == id
    requires forall m | j <= m < k :: !Evicts(actions[m], id)
    ensures id in run[k].cache && id in run[0].media && run[k].cache[id] == run[0].media[id]
    ensures k < |actions| && actions[k].CheckCache? ==>
              var t := actions[k].t;
              && t < |run[k].threads| == |run[k + 1].threads| && run[k].threads[t].Checking?
              && (run[k].threads[t].id == id ==> run[k + 1].threads[t] == Returned(id, Ok(run[0].media[id])))
  {
    assert Next(run[k - 1], actions[k - 1], run[k]);
    assert k < |actions| ==> Next(run[k], actions[k], run[k + 1]);
    if k > j + 1 { InsertedIsCached(run, actions, j, k - 1, id); }
    ValuesAreTheDecoding(run, actions, k);
  }

  /** No deadlock: while some thread is inside `read_chunk`, some thread can take a step other
      than a spurious wake-up. */
  predicate Inside(thread: Thread) { !thread.Quiet? && !thread.Returned? }

  predicate CanStep(thread: Thread) { Inside(thread) && !thread.Sleeping? }

  lemma SomeoneCanStep(run: seq<System>, actions: seq<Action>, k: nat, t: nat)
    requires IsRun(run, actions) && k < |run| && t < |run[k].threads| && Inside(run[k].threads[t])
    ensures exists u: nat, a: Action, n: System ::
              0 <= u < |run[k].threads| && CanStep(run[k].threads[u]) && !a.SpuriousWake? && Next(run[k], a, n)
  {
    EveryRunKeepsInv(run, actions, k);
    assert ThreadInv(run[k], t);
    var u := if run[k].threads[t].Sleeping? then run[k].flights[run[k].threads[t].flight].owner else t;
    assert CanStep(run[k].threads[u]);
    ProgressStep(run[k], u);
  }

  lemma ProgressStep(s: System, t: nat)
    requires Inv(s) && t < |s.threads| && CanStep(s.threads[t])
    ensures exists a: Action, n: System :: !a.SpuriousWake? && !a.Evict? && a.t == t && Next(s, a, n)
  {
    var thread := s.threads[t];
    assert ThreadInv(s, t);
    match thread {
      case Checking(id) =>
        assert Next(s, CheckCache(t), s.Set(t, if id in s.cache then Returned(id, Ok(s.cache[id])) else Missed(id)));
      case Missed(id) =>
        if id in s.inFlight {
          assert Next(s, JoinOrStart(t), s.Set(t, Waiting(id, s.inFlight[id])));
        } else {
          assert Next(s, JoinOrStart(t), s.Set(t, Decoding(id, |s.flights|))
            .(inFlight := s.inFlight[id := |s.flights|], flights := s.flights + [Flight(id, t, false)]));
        }
      case Waiting(id, f) =>
        assert Next(s, CheckComplete(t), s.Set(t, if s.flights[f].complete then Checking(id) else Sleeping(id, f)));
      case Decoding(id, f) =>
        assert Next(s, DecodeFails(t), s.Set(t, Decoded(id, f, Err)));
      case Inserting(id, f, value) =>
        assert Next(s, Insert(t, {}), s.Set(t, Decoded(id, f, Ok(value))).(cache := s.cache[id := value] - {}));
      case Decoded(id, f, result) =>
        assert Next(s, Complete(t), s.(flights := s.flights[f := s.flights[f].(complete := true)],
                                       threads := WakeAll(s.threads, f)[t := Completed(id, f, result)]));
      case Completed(id, f, result) =>
        assert Next(s, Retire(t), s.Set(t, Returned(id, result)).(inFlight := s.inFlight - {id}));
    }
  }
}
