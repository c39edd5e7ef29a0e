/** The verification scan over all chunks in batches (src/verify.rs, `scan_media`). */
module MediaScan {
  import opened Basics
  import opened ChunkIndex
  import opened MediaReads

  datatype Progress = Progress(bytesProcessed: nat, bytesVerified: nat, chunksProcessed: nat)

  /** Where the scan stands: its progress, the bytes fed to the digests, the failed chunks. */
  datatype State = State(progress: Progress, stream: Bytes, failures: seq<nat>)

  /** `stream` is what the reported hashes are digests of; none are reported after a failure. */
  datatype Scan = Scan(progress: Progress, stream: Option<Bytes>, failures: seq<nat>)

  /** The chunk decoded to exactly its share of the media. */
  predicate Validates(s: Source, id: nat, size: nat) {
    s.read(id).Ok? && |s.read(id).value| == size
  }

  function Scanned(s: Source, state: State, id: nat, chunk: Result<Bytes>): State
    requires state.progress.bytesProcessed <= s.logicalSize
  {
    var size := Min(s.chunkSize, s.logicalSize - state.progress.bytesProcessed);
    var p := state.progress;
    if chunk.Ok? && |chunk.value| == size then
      State(Progress(p.bytesProcessed + size, p.bytesVerified + size, p.chunksProcessed + 1),
            state.stream + chunk.value, state.failures)
    else
      State(Progress(p.bytesProcessed + size, p.bytesVerified, p.chunksProcessed + 1), state.stream,
            state.failures + [id])
  }

  /** The state after the first `n` chunks in order. */
  function ScanTo(s: Source, n: nat): (state: State)
    ensures state.progress.bytesProcessed <= s.logicalSize
  {
    if n == 0 then State(Progress(0, 0, 0), [], [])
    else Scanned(s, ScanTo(s, n - 1), n - 1, s.read(n - 1))
  }

  function Report(state: State): Scan {
    Scan(state.progress, if state.failures == [] then Some(state.stream) else None, state.failures)
  }

  /** The chunks read together: as many as the buffer holds, at most two per worker. */
  function BatchSize(bufferBytes: nat, chunkSize: nat, parallelism: nat): (n: nat)
    requires chunkSize > 0
    ensures n > 0
  {
    var budget := if bufferBytes / chunkSize > 1 then bufferBytes / chunkSize else 1;
    var batch := Min(budget, parallelism * 2);
    if batch > 1 then batch else 1
  }

  /** Nobody stops the scan: the progress callback goes on after each of its reports, and every
      failed chunk's error is accepted. */
  ghost predicate RunsToTheEnd(s: Source, count: nat, stops: nat -> bool, refuses: nat -> bool) {
    && (forall k: nat | k <= count :: !stops(k))
    && (forall id: nat | id < count && ChunkFails(s, id) :: !refuses(id))
  }

  predicate ChunkFails(s: Source, id: nat) { id in ScanTo(s, id + 1).failures }

  /** `scan_media`. Batches are read whole and then handled chunk by chunk; whatever their size,
      a scan that nobody stops reports the same as going through the chunks one by one. */
  method ScanMedia(s: Source, bufferBytes: nat, parallelism: nat, stops: nat -> bool,
                   refuses: nat -> bool) returns (r: Result<Scan>)
    ensures r.Ok? <==> ChunkCount(s.logicalSize, s.chunkSize).Ok?
                       && RunsToTheEnd(s, ChunkCount(s.logicalSize, s.chunkSize).value, stops, refuses)
    ensures r.Ok? ==> r.value == Report(ScanTo(s, ChunkCount(s.logicalSize, s.chunkSize).value))
  {
    hide Scanned;
    var count :- ChunkCount(s.logicalSize, s.chunkSize);
    var state := State(Progress(0, 0, 0), [], []);
    if stops(0) { return Err; }
    var batchSize := BatchSize(bufferBytes, s.chunkSize, parallelism);
    var start := 0;
    while start < count
      invariant start <= count && state == ScanTo(s, start)
      invariant forall k: nat | k <= start :: !stops(k)
      invariant forall id: nat | id < start && ChunkFails(s, id) :: !refuses(id)
      decreases count - start
    {
      var end := Min(start + batchSize, count);
      var chunks := seq(end - start, i requires 0 <= i < end - start => s.read(start + i));
      for id := start to end
        invariant state == ScanTo(s, id)
        invariant forall k: nat | k <= id :: !stops(k)
        invariant forall k: nat | k < id && ChunkFails(s, k) :: !refuses(k)
      {
        var before := |state.failures|;
        state := Scanned(s, state, id, chunks[id - start]);
        FailuresAreEarlier(s, id);
        assert ChunkFails(s, id) <==> |state.failures| > before by { FailureIsNoted(s, id); }
        if |state.failures| > before && refuses(id) { return Err; }
        if stops(id + 1) { return Err; }
      }
      start := end;
    }
    return Ok(Report(state));
  }

  lemma FailureIsNoted(s: Source, id: nat)
    requires forall k <- ScanTo(s, id).failures :: k < id
    ensures ChunkFails(s, id) <==> |ScanTo(s, id + 1).failures| > |ScanTo(s, id).failures|
  {}

  lemma {:induction false} FailuresAreEarlier(s: Source, n: nat)
    ensures forall k <- ScanTo(s, n).failures :: k < n
  {
    if n > 0 { FailuresAreEarlier(s, n - 1); }
  }

  // ---------------------------------------------------------------- what a whole scan says

  /** The first chunks' shares add up to where they end. */
  lemma {:induction false} BytesAreProcessed(s: Source, n: nat)
    requires s.chunkSize > 0
    ensures ScanTo(s, n).progress.bytesProcessed == Min(n * s.chunkSize, s.logicalSize)
    ensures ScanTo(s, n).progress.chunksProcessed == n
  {
    if n > 0 {
      BytesAreProcessed(s, n - 1);
      assert n * s.chunkSize == (n - 1) * s.chunkSize + s.chunkSize;
    }
  }

  /** A chunk fails exactly when it does not decode to its share of the media. */
  lemma FailsExactlyWhenInvalid(s: Source, id: nat)
    requires s.chunkSize > 0
    ensures ChunkFails(s, id) <==> !Validates(s, id, LogicalChunkSize(s.logicalSize, s.chunkSize, id))
  {
    BytesAreProcessed(s, id);
    FailuresAreEarlier(s, id);
  }

  ghost predicate AllValidate(s: Source, n: nat) {
    forall id | 0 <= id < n :: Validates(s, id, LogicalChunkSize(s.logicalSize, s.chunkSize, id))
  }

  lemma {:induction false} StreamIsThePrefix(s: Source, n: nat)
    requires s.chunkSize > 0
    ensures ScanTo(s, n).failures == [] <==> AllValidate(s, n)
    ensures AllValidate(s, n) ==> ScanTo(s, n).stream == Concat(ChunksTo(s, n))
    ensures forall id: nat ::
              id in ScanTo(s, n).failures
              <==> id < n && !Validates(s, id, LogicalChunkSize(s.logicalSize, s.chunkSize, id))
  {
    if n > 0 {
      StreamIsThePrefix(s, n - 1);
      BytesAreProcessed(s, n - 1);
      assert ChunksTo(s, n)[..n - 1] == ChunksTo(s, n - 1);
      hide Concat, ChunksTo, LogicalChunkSize, ScanTo;
      ScanStep(s, n);
    }
  }

  lemma ScanStep(s: Source, n: nat)
    requires s.chunkSize > 0 && n > 0
    ensures var size := LogicalChunkSize(s.logicalSize, s.chunkSize, n - 1);
            if Validates(s, n - 1, size) then
              && ScanTo(s, n).failures == ScanTo(s, n - 1).failures
              && ScanTo(s, n).stream == ScanTo(s, n - 1).stream + s.read(n - 1).value
              && Concat(ChunksTo(s, n)) == Concat(ChunksTo(s, n - 1)) + s.read(n - 1).value
            else ScanTo(s, n).failures == ScanTo(s, n - 1).failures + [n - 1]
  {
    BytesAreProcessed(s, n - 1);
    assert ChunksTo(s, n)[..n - 1] == ChunksTo(s, n - 1);
  }

  /** A completed scan has processed the whole media in order; it reports hashes exactly when
      every chunk validated, and then they are hashes of the whole media. */
  lemma CompleteScanCoversTheMedia(s: Source)
    requires s.chunkSize > 0
    ensures var count := ChunkCount(s.logicalSize, s.chunkSize).value;
            var scan := Report(ScanTo(s, count));
            && scan.progress.bytesProcessed == s.logicalSize && scan.progress.chunksProcessed == count
            && (scan.stream.Some? <==> AllValidate(s, count))
            && (scan.stream.Some? ==> scan.stream.value == Media(s))
            && (forall id: nat ::
                  id in scan.failures
                  <==> id < count && !Validates(s, id, LogicalChunkSize(s.logicalSize, s.chunkSize, id)))
  {
    hide Validates, LogicalChunkSize, ScanTo, AllValidate;
    var count := ChunkCount(s.logicalSize, s.chunkSize).value;
    AllChunksReachTheEnd(s.logicalSize, s.chunkSize);
    BytesAreProcessed(s, count);
    StreamIsThePrefix(s, count);
  }

  // ---------------------------------------------------------------- what was verified

  /** The positions of the first `n` chunks that lie in a chunk that validates. */
  ghost function VerifiedPositions(s: Source, n: nat): set<nat>
    requires s.chunkSize > 0
  {
    set p: nat | p < Min(n * s.chunkSize, s.logicalSize)
                 && Validates(s, p / s.chunkSize, LogicalChunkSize(s.logicalSize, s.chunkSize, p / s.chunkSize))
  }

  ghost function Interval(lo: nat, hi: nat): (r: set<nat>)
    requires lo <= hi
    ensures |r| == hi - lo && forall p :: p in r <==> lo <= p < hi
    decreases hi - lo
  {
    if lo == hi then {} else Interval(lo, hi - 1) + {hi - 1}
  }

  /** The positions of chunk `n - 1` are verified all together or not at all. */
  lemma NextPositions(s: Source, n: nat)
    requires s.chunkSize > 0 && n > 0
    ensures var lo, hi := Min((n - 1) * s.chunkSize, s.logicalSize), Min(n * s.chunkSize, s.logicalSize);
            lo <= hi && hi - lo == LogicalChunkSize(s.logicalSize, s.chunkSize, n - 1)
            && VerifiedPositions(s, n)
               == VerifiedPositions(s, n - 1)
                  + if Validates(s, n - 1, hi - lo) then Interval(lo, hi) else {}
  {
    assert n * s.chunkSize == (n - 1) * s.chunkSize + s.chunkSize;
    hide Validates;
    var lo, hi := Min((n - 1) * s.chunkSize, s.logicalSize), Min(n * s.chunkSize, s.logicalSize);
    forall p: nat | lo <= p < hi ensures p / s.chunkSize == n - 1 {
      PositionInChunk(s.chunkSize, n - 1, p - (n - 1) * s.chunkSize);
    }
  }

  /** The bytes reported as verified are as many as there are positions in chunks that validate. */
  lemma {:induction false} VerifiedBytesAreCounted(s: Source, n: nat)
    requires s.chunkSize > 0
    ensures ScanTo(s, n).progress.bytesVerified == |VerifiedPositions(s, n)|
  {
    if n == 0 {
      assert VerifiedPositions(s, 0) == {};
    } else {
      VerifiedBytesAreCounted(s, n - 1);
      BytesAreProcessed(s, n - 1);
      NextPositions(s, n);
      PositionsEnd(s, n - 1);
      var lo, hi := Min((n - 1) * s.chunkSize, s.logicalSize), Min(n * s.chunkSize, s.logicalSize);
      hide VerifiedPositions, Validates, Interval;
      VerifiedStep(s, n);
      assert VerifiedPositions(s, n - 1) !! Interval(lo, hi);
    }
  }

  lemma PositionsEnd(s: Source, n: nat)
    requires s.chunkSize > 0
    ensures forall p <- VerifiedPositions(s, n) :: p < Min(n * s.chunkSize, s.logicalSize)
  {
  }

  lemma VerifiedStep(s: Source, n: nat)
    requires s.chunkSize > 0 && n > 0
    ensures var size := LogicalChunkSize(s.logicalSize, s.chunkSize, n - 1);
            ScanTo(s, n).progress.bytesVerified
            == ScanTo(s, n - 1).progress.bytesVerified + if Validates(s, n - 1, size) then size else 0
  {
    BytesAreProcessed(s, n - 1);
  }

  /** Failed chunks are listed once each and in order. */
  lemma {:induction false} FailuresAreAscending(s: Source, n: nat)
    ensures forall i, j | 0 <= i < j < |ScanTo(s, n).failures| :: ScanTo(s, n).failures[i] < ScanTo(s, n).failures[j]
  {
    if n > 0 {
      FailuresAreAscending(s, n - 1);
      FailuresAreEarlier(s, n - 1);
      var before, after := ScanTo(s, n - 1).failures, ScanTo(s, n).failures;
      assert after == before || after == before + [n - 1];
      assert forall i | 0 <= i < |before| :: before[i] in before;
    }
  }
}
