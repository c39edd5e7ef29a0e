/** Reading the media and the logical files in it (src/image.rs, `read_at_impl` and
    `read_single_file_at_impl`). */
module MediaReads {
  import opened Basics
  import opened ChunkIndex

  /** An opened image: `read(id)` is the decoded chunk `id`, or the error its decoding gives. */
  datatype Source = Source(logicalSize: nat, chunkSize: nat, read: nat -> Result<Bytes>)

  function LogicalChunkSize(logicalSize: nat, chunkSize: nat, id: nat): nat {
    var start := id * chunkSize;
    if start >= logicalSize then 0
    else if logicalSize - start < chunkSize then logicalSize - start
    else chunkSize
  }

  /** Decoding gives a chunk its logical size, or fails. */
  ghost predicate Sized(s: Source) {
    forall id: nat | s.read(id).Ok? :: |s.read(id).value| == LogicalChunkSize(s.logicalSize, s.chunkSize, id)
  }

  function ChunkOf(s: Source, p: nat): nat
    requires s.chunkSize > 0
  {
    p / s.chunkSize
  }

  function Within(s: Source, p: nat): (w: nat)
    requires s.chunkSize > 0
    ensures w < s.chunkSize
  {
    p % s.chunkSize
  }

  predicate Available(s: Source, p: nat)
    requires s.chunkSize > 0
  {
    s.read(ChunkOf(s, p)).Ok?
  }

  function MediaByte(s: Source, p: nat): Byte
    requires s.chunkSize > 0
  {
    var chunk := s.read(ChunkOf(s, p));
    if chunk.Ok? && Within(s, p) < |chunk.value| then chunk.value[Within(s, p)] else 0
  }

  /** The `n` bytes of the media from `offset`. */
  function MediaSlice(s: Source, offset: nat, n: nat): (b: Bytes)
    requires s.chunkSize > 0
    ensures |b| == n
  {
    seq<Byte>(n, i requires 0 <= i < n => MediaByte(s, offset + i))
  }

  // ---------------------------------------------------------------- positions

  lemma PositionInChunk(chunkSize: nat, id: nat, within: nat)
    requires within < chunkSize
    ensures (id * chunkSize + within) / chunkSize == id && (id * chunkSize + within) % chunkSize == within
  {
    var p := id * chunkSize + within;
    assert p == chunkSize * (p / chunkSize) + p % chunkSize;
    if p / chunkSize < id {
      assert chunkSize * (p / chunkSize)
          <= chunkSize * (id - 1) by { ProductIsMonotone(chunkSize, p / chunkSize, id - 1); }
    } else if p / chunkSize > id {
      assert chunkSize * (id + 1)
          <= chunkSize * (p / chunkSize) by { ProductIsMonotone(chunkSize, id + 1, p / chunkSize); }
    }
  }

  lemma {:induction false} ProductIsMonotone(a: nat, x: nat, y: nat)
    requires x <= y
    ensures a * x <= a * y
  {
    if a > 0 {
      ProductIsMonotone(a - 1, x, y);
      assert a * x == (a - 1) * x + x && a * y == (a - 1) * y + y;
    }
  }

  lemma PositionIsInChunk(s: Source, current: nat, i: nat)
    requires s.chunkSize > 0 && Within(s, current) + i < s.chunkSize
    ensures ChunkOf(s, current + i) == ChunkOf(s, current) && Within(s, current + i) == Within(s, current) + i
  {
    var id, within := ChunkOf(s, current), Within(s, current);
    assert current + i == id * s.chunkSize + (within + i);
    PositionInChunk(s.chunkSize, id, within + i);
  }

  /** A decoded chunk reaches past every position of the media that is in it. */
  lemma ChunkReaches(s: Source, current: nat)
    requires Sized(s) && s.chunkSize > 0 && Available(s, current) && current < s.logicalSize
    ensures Within(s, current) < |s.read(ChunkOf(s, current)).value| <= s.chunkSize
  {
    assert current == ChunkOf(s, current) * s.chunkSize + Within(s, current);
  }

  /** The bytes from `current` on, within its chunk. */
  lemma RestOfChunk(s: Source, current: nat, n: nat)
    requires Sized(s) && s.chunkSize > 0 && Available(s, current) && current < s.logicalSize
    requires Within(s, current) + n <= |s.read(ChunkOf(s, current)).value|
    ensures forall p | current <= p < current + n :: Available(s, p)
    ensures MediaSlice(s, current, n) == s.read(ChunkOf(s, current)).value[Within(s, current)..Within(s, current) + n]
  {
    ChunkReaches(s, current);
    hide ChunkOf, Within, Sized;
    forall p | current <= p < current + n
      ensures Available(s, p) && MediaByte(s, p)
              == s.read(ChunkOf(s, current)).value[Within(s, current) + (p - current)]
    {
      PositionIsInChunk(s, current, p - current);
      assert current + (p - current) == p;
    }
  }

  // ---------------------------------------------------------------- reading the media

  /** How many bytes a read of `length` at `offset` gives. */
  function ToRead(size: nat, offset: nat, length: nat): nat {
    if offset >= size then 0 else Min(length, size - offset)
  }

  /** The chunks under `n` bytes from `offset` can all be decoded. */
  ghost predicate Readable(s: Source, offset: nat, n: nat) {
    n == 0 || (s.chunkSize > 0 && forall p | offset <= p < offset + n :: Available(s, p))
  }

  /** `read_at_impl` into `buf[lo..hi]`: fills exactly the bytes the media has there, and
      succeeds exactly when every chunk under them decodes. */
  method ReadAt(s: Source, buf: array<Byte>, lo: nat, hi: nat, offset: nat) returns (r: Result<nat>)
    requires Sized(s) && lo <= hi <= buf.Length
    modifies buf
    ensures r.Ok? <==> Readable(s, offset, ToRead(s.logicalSize, offset, hi - lo))
    ensures r.Ok? ==> r.value == ToRead(s.logicalSize, offset, hi - lo)
    ensures r.Ok? && r.value > 0 ==> buf[lo..lo + r.value] == MediaSlice(s, offset, r.value)
    ensures forall i | 0 <= i < buf.Length
            && !(lo <= i < lo + ToRead(s.logicalSize, offset, hi - lo)) :: buf[i] == old(buf[i])
  {
    hide ChunkOf, Within, Available, MediaByte, MediaSlice, Sized;
    if lo == hi || offset >= s.logicalSize { return Ok(0); }
    if s.chunkSize == 0 { return Err; }
    var toRead := Min(hi - lo, s.logicalSize - offset);
    var copied, current := 0, offset;
    while copied < toRead
      invariant copied <= toRead && current == offset + copied
      invariant forall p | offset <= p < current :: Available(s, p)
      invariant buf[lo..lo + copied] == MediaSlice(s, offset, copied)
      invariant forall i | 0 <= i < buf.Length && !(lo <= i < lo + copied) :: buf[i] == old(buf[i])
      decreases toRead - copied
    {
      var decoded := s.read(ChunkOf(s, current));
      AvailableMeansRead(s, current);
      if decoded.Err? { return Err; }
      var pageOffset := Within(s, current);
      ChunkReaches(s, current);
      var n := Min(toRead - copied, |decoded.value| - pageOffset);
      RestOfChunk(s, current, n);
      ghost var before := buf[lo..lo + copied];
      Copy(buf, lo + copied, decoded.value[pageOffset..pageOffset + n]);
      assert buf[lo..lo + copied] == before;
      assert buf[lo..lo + copied + n] == buf[lo..lo + copied] + buf[lo + copied..lo + copied + n];
      SlicesJoin(s, offset, copied, n);
      copied, current := copied + n, current + n;
    }
    return Ok(copied);
  }

  lemma AvailableMeansRead(s: Source, p: nat)
    requires s.chunkSize > 0
    ensures Available(s, p) <==> s.read(ChunkOf(s, p)).Ok?
  {}

  lemma SlicesJoin(s: Source, offset: nat, m: nat, n: nat)
    requires s.chunkSize > 0
    ensures MediaSlice(s, offset, m) + MediaSlice(s, offset + m, n) == MediaSlice(s, offset, m + n)
  {}

  method Copy(buf: array<Byte>, start: nat, data: Bytes)
    requires start + |data| <= buf.Length
    modifies buf
    ensures buf[start..start + |data|] == data
    ensures forall i | 0 <= i < buf.Length && !(start <= i < start + |data|) :: buf[i] == old(buf[i])
  {
    for j := 0 to |data|
      invariant buf[start..start + j] == data[..j]
      invariant forall i | 0 <= i < buf.Length && !(start <= i < start + j) :: buf[i] == old(buf[i])
    {
      buf[start + j] := data[j];
    }
  }

  // ---------------------------------------------------------------- the media as one sequence

  function ChunksTo(s: Source, n: nat): seq<Bytes> {
    seq(n, id requires 0 <= id < n => if s.read(id).Ok? then s.read(id).value else [])
  }

  function Media(s: Source): Bytes
    requires s.chunkSize > 0
  {
    Concat(ChunksTo(s, ChunkCount(s.logicalSize, s.chunkSize).value))
  }

  /** The first chunks, concatenated, are the media up to where they end. */
  lemma {:induction false} ChunksAreThePrefix(s: Source, n: nat)
    requires Sized(s) && s.chunkSize > 0 && n <= ChunkCount(s.logicalSize, s.chunkSize).value
    requires forall id | 0 <= id < n :: s.read(id).Ok?
    ensures Concat(ChunksTo(s, n)) == MediaSlice(s, 0, Min(n * s.chunkSize, s.logicalSize))
  {
    if n > 0 {
      ChunksAreThePrefix(s, n - 1);
      var chunk := s.read(n - 1).value;
      LastChunkStarts(s.logicalSize, s.chunkSize, n - 1);
      assert n * s.chunkSize == (n - 1) * s.chunkSize + s.chunkSize;
      ChunkIsSlice(s, n - 1);
      hide MediaSlice;
      assert ChunksTo(s, n)[..n - 1] == ChunksTo(s, n - 1);
      SlicesJoin(s, 0, (n - 1) * s.chunkSize, |chunk|);
    }
  }

  lemma ChunkIsSlice(s: Source, id: nat)
    requires Sized(s) && s.chunkSize > 0 && s.read(id).Ok? && id * s.chunkSize < s.logicalSize
    ensures s.read(id).value == MediaSlice(s, id * s.chunkSize, |s.read(id).value|)
  {
    var start, chunk := id * s.chunkSize, s.read(id).value;
    PositionInChunk(s.chunkSize, id, 0);
    RestOfChunk(s, start, |chunk|);
  }

  lemma LastChunkStarts(logicalSize: nat, chunkSize: nat, id: nat)
    requires chunkSize > 0 && id < ChunkCount(logicalSize, chunkSize).value
    ensures id * chunkSize < logicalSize
  {
    var last := (logicalSize - 1) / chunkSize;
    assert logicalSize - 1 == chunkSize * last + (logicalSize - 1) % chunkSize;
    ProductIsMonotone(chunkSize, id, last);
  }

  lemma AllChunksReachTheEnd(logicalSize: nat, chunkSize: nat)
    requires chunkSize > 0
    ensures ChunkCount(logicalSize, chunkSize).value * chunkSize >= logicalSize
  {
    if logicalSize > 0 {
      var last := (logicalSize - 1) / chunkSize;
      assert logicalSize - 1 == chunkSize * last + (logicalSize - 1) % chunkSize;
      assert (last + 1) * chunkSize == chunkSize * last + chunkSize;
    }
  }

  lemma PositionsAreInChunks(s: Source, p: nat)
    requires s.chunkSize > 0 && p < s.logicalSize
    ensures ChunkOf(s, p) < ChunkCount(s.logicalSize, s.chunkSize).value
  {
    QuotientIsMonotone(s.chunkSize, p, s.logicalSize - 1);
  }

  lemma QuotientIsMonotone(d: nat, x: nat, y: nat)
    requires d > 0 && x <= y
    ensures x / d <= y / d
  {
    assert x == d * (x / d) + x % d && y == d * (y / d) + y % d;
    if x / d > y / d { ProductIsMonotone(d, y / d + 1, x / d); }
  }

  ghost predicate AllDecode(s: Source) {
    s.chunkSize > 0 && forall id | 0 <= id < ChunkCount(s.logicalSize, s.chunkSize).value :: s.read(id).Ok?
  }

  /** When every chunk decodes, the media is their concatenation, has the logical size, and
      every read succeeds with its slice. */
  lemma ReadsAreSlicesOfTheMedia(s: Source, offset: nat, n: nat)
    requires Sized(s) && AllDecode(s) && offset + n <= s.logicalSize
    ensures |Media(s)| == s.logicalSize
    ensures Readable(s, offset, n) && MediaSlice(s, offset, n) == Media(s)[offset..offset + n]
  {
    var count := ChunkCount(s.logicalSize, s.chunkSize).value;
    ChunksAreThePrefix(s, count);
    AllChunksReachTheEnd(s.logicalSize, s.chunkSize);
    hide ChunkOf, Within, MediaByte, Sized, ChunksTo, Concat, ChunkCount;
    assert Media(s) == MediaSlice(s, 0, s.logicalSize);
    forall p | offset <= p < offset + n ensures Available(s, p) {
      PositionsAreInChunks(s, p);
    }
  }
}
