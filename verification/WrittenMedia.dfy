/** What a caller wrote is what the emitted media holds (src/writer.rs): the properties speak of
    the operations of a run and their data, not of how the writer keeps them. */
module WrittenMedia {
  import opened Basics
  import opened ChunkCodec
  import opened ChunkWriter
  import MediaReads

  /** The bytes an operation puts at the current position, if it is a write at all. */
  datatype Attempt = NoWrite | Attempt(data: Bytes, io: Io)

  function AttemptOf(lib: Library, a: Action): Attempt {
    match a
    case DoWrite(data, io) => Attempt(data, io)
    case DoWriteEncoded(chunk, io) =>
      (match DecodeGiven(lib, chunk)
       case Ok(data) => Attempt(data, io)
       case Err => NoWrite)
    case _ => NoWrite
  }

  /** The end of a write fits 64 bits and the declared media. */
  predicate Fits(w: Writer, data: Bytes) {
    var end := w.offset + |data|;
    end < U64 && (w.options.mediaSize.Some? ==> end <= w.options.mediaSize.value)
  }

  /** The operation writes all of its data. */
  predicate Completes(w: Writer, a: Action) {
    var attempt := AttemptOf(w.lib, a);
    attempt.Attempt? && Fits(w, attempt.data) && attempt.io.Complete?
  }

  function DataOf(w: Writer, a: Action): Bytes
    requires Completes(w, a)
  {
    AttemptOf(w.lib, a).data
  }

  function EndOf(w: Writer, a: Action): nat
    requires Completes(w, a)
  {
    w.offset + |DataOf(w, a)|
  }

  /** The operation puts a byte at position `p`, even if it fails later. */
  predicate Touches(w: Writer, a: Action, p: nat) {
    var attempt := AttemptOf(w.lib, a);
    && attempt.Attempt? && Fits(w, attempt.data) && w.offset <= p < w.offset + |attempt.data|
    && (attempt.io.Torn? ==> p < w.offset + attempt.io.bytes)
  }

  /** The byte it puts there. */
  function TouchedByte(w: Writer, a: Action, p: nat): Byte
    requires Touches(w, a, p)
  {
    AttemptOf(w.lib, a).data[p - w.offset]
  }

  /** A new writer: nothing written, at position 0. */
  predicate IsNew(w: Writer) {
    w.file == [] && w.length == 0 && w.offset == 0 && w.inputSize == 0
  }

  // ---------------------------------------------------------------- one operation

  /** A write succeeds exactly when its end fits and nothing fails; one that does not fit changes
      nothing. */
  lemma WriteSucceedsExactlyWhen(w: Writer, data: Bytes, io: Io)
    requires w.chunkSize > 0
    ensures Written(w, data, io).1 <==> Completes(w, DoWrite(data, io))
    ensures !Fits(w, data) ==> Written(w, data, io).0 == w
  {
  }

  lemma EncodedWriteSucceedsExactlyWhen(w: Writer, c: EncodedData, io: Io)
    requires w.chunkSize > 0
    ensures WriteEncoded(w, c, io).1 <==> Completes(w, DoWriteEncoded(c, io))
    ensures AttemptOf(w.lib, DoWriteEncoded(c, io)).NoWrite? ==> WriteEncoded(w, c, io).0 == w
  {
  }

  /** What has to fit: the declared size, or without one the size of the input. */
  function Target(w: Writer): nat {
    if w.options.mediaSize.Some? then w.options.mediaSize.value else w.inputSize
  }

  /** Where a seek leads, from the start, the current position or the end of the media. */
  function SoughtPosition(w: Writer, seek: SeekFrom): int {
    match seek
    case Start(offset) => offset
    case Current(delta) => w.offset + delta
    case End(delta) => Target(w) + delta
  }

  /** The position follows completed writes, and seeks that lead to a 64-bit position from 0 on
      while the input fits the declared size. */
  lemma PositionFollows(w: Writer, a: Action)
    requires w.chunkSize > 0
    ensures Step(w, a).offset
            == if a.DoSeek? && 0 <= SoughtPosition(w, a.seek) < U64 && w.inputSize <= Target(w)
               then SoughtPosition(w, a.seek)
               else if Completes(w, a) then EndOf(w, a)
               else w.offset
  {
  }

  lemma SizeFollows(w: Writer, a: Action)
    requires w.chunkSize > 0
    ensures Step(w, a).inputSize == if Completes(w, a) then Max(w.inputSize, EndOf(w, a)) else w.inputSize
    ensures Step(w, a).lib == w.lib && Step(w, a).length >= w.length
    ensures Completes(w, a) && DataOf(w, a) != [] ==> Step(w, a).length >= EndOf(w, a)
    ensures Step(w, a).length == if Completes(w, a) && DataOf(w, a) != [] then Max(w.length, EndOf(w, a)) else w.length
  {
  }

  /** What an operation leaves in the spool's file. */
  lemma FileFollows(w: Writer, a: Action, p: nat)
    requires w.chunkSize > 0
    ensures SpoolByte(Step(w, a).file, p) == if Touches(w, a, p) then TouchedByte(w, a, p) else SpoolByte(w.file, p)
  {
    hide WriteSpool, SpoolByte, DecodeGiven, Remember, Forget;
    var attempt := AttemptOf(w.lib, a);
    if attempt.Attempt? && Fits(w, attempt.data) {
      var done := if attempt.io.Torn? then attempt.data[..Min(attempt.io.bytes, |attempt.data|)] else attempt.data;
      WrittenByte(w.file, w.offset, done, p);
    }
  }

  // ---------------------------------------------------------------- whole runs

  lemma RunHas(run: seq<Writer>, actions: seq<Action>, n: nat)
    requires IsRun(run, actions) && n <= |actions|
    ensures n < |run| && |actions| <= |run| && run[n].chunkSize > 0
  {
    EveryRunIsCoherent(run, actions, n);
  }

  /** No operation from `j` up to `n` puts a byte at `p`. */
  ghost predicate LeavesAlone(run: seq<Writer>, actions: seq<Action>, j: nat, n: nat, p: nat)
    requires n <= |actions| <= |run|
  {
    forall m | j <= m < n :: !Touches(run[m], actions[m], p)
  }

  lemma {:induction false} FileByteStays(run: seq<Writer>, actions: seq<Action>, j: nat, n: nat, p: nat)
    requires IsRun(run, actions) && j <= n <= |actions| && LeavesAlone(run, actions, j, n, p)
    ensures SpoolByte(run[n].file, p) == SpoolByte(run[j].file, p) && run[n].length >= run[j].length
    decreases n - j
  {
    hide Step, Touches, SpoolByte, Completes;
    if j < n {
      FileByteStays(run, actions, j, n - 1, p);
      assert Steps(run[n - 1], actions[n - 1], run[n]);
      FileFollows(run[n - 1], actions[n - 1], p);
      SizeFollows(run[n - 1], actions[n - 1]);
    }
  }

  /** Some write of the first `n` operations completed and ends at `end`. */
  ghost predicate EndedAt(run: seq<Writer>, actions: seq<Action>, n: nat, end: nat)
    requires n <= |actions| <= |run|
  {
    exists j | 0 <= j < n :: Completes(run[j], actions[j]) && EndOf(run[j], actions[j]) == end
  }

  /** The size of the input is the largest end of any completed write: seeking back and writing
      less does not shrink it, and a failed write does not grow it. */
  lemma {:induction false} InputSizeIsLargestEnd(run: seq<Writer>, actions: seq<Action>, n: nat)
    requires IsRun(run, actions) && IsNew(run[0]) && n <= |actions|
    ensures forall j | 0 <= j < n && Completes(run[j], actions[j]) :: EndOf(run[j], actions[j]) <= run[n].inputSize
    ensures run[n].inputSize == 0 || EndedAt(run, actions, n, run[n].inputSize)
  {
    hide Step, Completes, EndOf;
    if n > 0 {
      InputSizeIsLargestEnd(run, actions, n - 1);
      assert Steps(run[n - 1], actions[n - 1], run[n]);
      SizeFollows(run[n - 1], actions[n - 1]);
    }
  }

  /** `v` is `target` rounded up to a whole number of sectors. */
  ghost predicate IsLeastMultiple(v: nat, sector: nat, target: nat)
    requires sector > 0
  {
    v % sector == 0 && v >= target && forall u: nat | u % sector == 0 && u >= target :: v <= u
  }

  lemma LeastMultiple(sector: nat, target: nat)
    requires sector > 0
    ensures IsLeastMultiple((target + sector - 1) / sector * sector, sector, target)
  {
    var k := (target + sector - 1) / sector;
    var v := k * sector;
    assert v == target + sector - 1 - (target + sector - 1) % sector;
    MediaReads.PositionInChunk(sector, k, 0);
    forall u: nat | u % sector == 0 && u >= target ensures v <= u {
      if u < v { MultiplesAreApart(u, k, sector); }
    }
  }

  /** A multiple below another is at least a whole sector below it. */
  lemma MultiplesAreApart(u: nat, k: nat, sector: nat)
    requires sector > 0 && u % sector == 0 && u < k * sector
    ensures u + sector <= k * sector
  {
    var m := u / sector;
    assert u == m * sector;
    if m >= k { MediaReads.ProductIsMonotone(sector, k, m); } else { MediaReads.ProductIsMonotone(sector, m + 1, k); }
    assert (m + 1) * sector == m * sector + sector;
  }

  /** The size of the media is the target rounded up to whole sectors; it exists exactly when it
      fits 64 bits and the input fits the declared size. */
  lemma LogicalSizeIsRoundedUp(w: Writer)
    requires w.options.bytesPerSector > 0
    ensures exists v: nat ::
              && IsLeastMultiple(v, w.options.bytesPerSector, Target(w))
              && LogicalSize(w) == if w.inputSize > Target(w) || v >= U64 then Err else Ok(v)
  {
    var sector := w.options.bytesPerSector;
    LeastMultiple(sector, Target(w));
    var v: nat := (Target(w) + sector - 1) / sector * sector;
    assert LogicalSize(w) == if w.inputSize > Target(w) || v >= U64 then Err else Ok(v);
  }

  lemma MediaCoversInput(w: Writer)
    requires w.options.bytesPerSector > 0 && LogicalSize(w).Ok?
    ensures w.inputSize <= LogicalSize(w).value
  {
    hide LogicalSize;
    LogicalSizeIsRoundedUp(w);
  }

  /** The byte of the emitted media at `p`. */
  function MediaByteAt(w: Writer, p: nat): Byte
    requires w.options.bytesPerSector > 0 && LogicalSize(w).Ok? && p < LogicalSize(w).value
  {
    SpoolSlice(w.Spool(), 0, LogicalSize(w).value)[p]
  }

  lemma MediaByteIsSpooled(w: Writer, p: nat)
    requires w.options.bytesPerSector > 0 && LogicalSize(w).Ok? && p < LogicalSize(w).value && w.length <= |w.file|
    ensures MediaByteAt(w, p) == if p < w.length then SpoolByte(w.file, p) else 0
  {
  }

  /** Nothing a completed write wrote is lost: unless a later write puts another byte there, the
      byte is at its position in the media, which reaches that far. */
  lemma WrittenByteIsInMedia(run: seq<Writer>, actions: seq<Action>, j: nat, n: nat, p: nat)
    requires IsRun(run, actions) && IsNew(run[0]) && j < n <= |actions|
    requires Completes(run[j], actions[j]) && run[j].offset <= p < EndOf(run[j], actions[j])
    requires LeavesAlone(run, actions, j + 1, n, p)
    requires run[n].options.bytesPerSector > 0 && LogicalSize(run[n]).Ok?
    ensures p < LogicalSize(run[n]).value
    ensures MediaByteAt(run[n], p) == DataOf(run[j], actions[j])[p - run[j].offset]
  {
    assert Steps(run[j], actions[j], run[j + 1]);
    InputSizeIsLargestEnd(run, actions, n);
    EveryRunIsCoherent(run, actions, n);
    MediaCoversInput(run[n]);
    hide LogicalSize, Step, SpoolByte, MediaByteAt;
    SizeFollows(run[j], actions[j]);
    FileFollows(run[j], actions[j], p);
    FileByteStays(run, actions, j + 1, n, p);
    MediaByteIsSpooled(run[n], p);
  }

  /** A write that failed leaves its byte or none: nothing else shows through. */
  lemma TornByteIsOldOrNew(run: seq<Writer>, actions: seq<Action>, j: nat, n: nat, p: nat)
    requires IsRun(run, actions) && j < n <= |actions|
    requires Touches(run[j], actions[j], p) && LeavesAlone(run, actions, j + 1, n, p)
    requires run[n].options.bytesPerSector > 0 && LogicalSize(run[n]).Ok? && p < LogicalSize(run[n]).value
    ensures MediaByteAt(run[n], p) in {0, TouchedByte(run[j], actions[j], p)}
  {
    assert Steps(run[j], actions[j], run[j + 1]);
    EveryRunIsCoherent(run, actions, n);
    hide LogicalSize, Step, SpoolByte, MediaByteAt;
    FileFollows(run[j], actions[j], p);
    FileByteStays(run, actions, j + 1, n, p);
    MediaByteIsSpooled(run[n], p);
  }

  /** What nothing was ever written to reads as zero. */
  lemma UntouchedByteIsZero(run: seq<Writer>, actions: seq<Action>, n: nat, p: nat)
    requires IsRun(run, actions) && IsNew(run[0]) && n <= |actions| && LeavesAlone(run, actions, 0, n, p)
    requires run[n].options.bytesPerSector > 0 && LogicalSize(run[n]).Ok? && p < LogicalSize(run[n]).value
    ensures MediaByteAt(run[n], p) == 0
  {
    EveryRunIsCoherent(run, actions, n);
    FileByteStays(run, actions, 0, n, p);
    hide LogicalSize, MediaByteAt;
    MediaByteIsSpooled(run[n], p);
  }

  /** Operation `j` is the last of the first `n` to put a byte at `p`. */
  ghost predicate TouchesLast(run: seq<Writer>, actions: seq<Action>, j: nat, n: nat, p: nat)
    requires n <= |actions| <= |run|
  {
    j < n && Touches(run[j], actions[j], p) && LeavesAlone(run, actions, j + 1, n, p)
  }

  /** What the media has at a position that operation `a` of `w` was the last to touch. */
  predicate HasByteOf(w: Writer, a: Action, p: nat, media: Bytes)
    requires Touches(w, a, p)
  {
    if Completes(w, a) then p < |media| && media[p] == TouchedByte(w, a, p)
    else p < |media| ==> media[p] in {0, TouchedByte(w, a, p)}
  }

  /** `media` is what the first `n` operations wrote: the last byte written at each position, a
      byte or zero where that write failed, and zero where nothing was written. */
  ghost predicate Reflects(run: seq<Writer>, actions: seq<Action>, n: nat, media: Bytes)
    requires n <= |actions| <= |run|
  {
    && (forall j: nat, p: nat | TouchesLast(run, actions, j, n, p) :: HasByteOf(run[j], actions[j], p, media))
    && (forall p: nat | p < |media| && LeavesAlone(run, actions, 0, n, p) :: media[p] == 0)
  }

  lemma LastByteIsThere(run: seq<Writer>, actions: seq<Action>, j: nat, n: nat, p: nat)
    requires IsRun(run, actions) && IsNew(run[0]) && n <= |actions| && TouchesLast(run, actions, j, n, p)
    requires run[n].options.bytesPerSector > 0 && LogicalSize(run[n]).Ok?
    ensures HasByteOf(run[j], actions[j], p, SpoolSlice(run[n].Spool(), 0, LogicalSize(run[n]).value))
  {
    hide LogicalSize, Touches, Completes, LeavesAlone, SpoolSlice;
    if Completes(run[j], actions[j]) {
      CompletedTouch(run[j], actions[j], p);
      WrittenByteIsInMedia(run, actions, j, n, p);
    } else if p < LogicalSize(run[n]).value {
      TornByteIsOldOrNew(run, actions, j, n, p);
    }
  }

  /** The media a run emits reflects what it wrote. */
  lemma MediaReflectsWrites(run: seq<Writer>, actions: seq<Action>, n: nat)
    requires IsRun(run, actions) && IsNew(run[0]) && n <= |actions|
    requires run[n].options.bytesPerSector > 0 && LogicalSize(run[n]).Ok?
    ensures Reflects(run, actions, n, SpoolSlice(run[n].Spool(), 0, LogicalSize(run[n]).value))
  {
    hide LogicalSize, Touches, HasByteOf, LeavesAlone, SpoolSlice;
    var media := SpoolSlice(run[n].Spool(), 0, LogicalSize(run[n]).value);
    forall j: nat, p: nat | TouchesLast(run, actions, j, n, p) ensures HasByteOf(run[j], actions[j], p, media) {
      LastByteIsThere(run, actions, j, n, p);
    }
    forall p: nat | p < |media| && LeavesAlone(run, actions, 0, n, p) ensures media[p] == 0 {
      UntouchedByteIsZero(run, actions, n, p);
    }
  }

  lemma CompletedTouch(w: Writer, a: Action, p: nat)
    requires Completes(w, a) && Touches(w, a, p)
    ensures w.offset <= p < EndOf(w, a) && DataOf(w, a)[p - w.offset] == TouchedByte(w, a, p)
  {
  }

  // ---------------------------------------------------------------- what is fixed once data is written

  lemma DataFixesOptions(w: Writer, a: Action)
    requires w.chunkSize > 0 && w.inputSize != 0
    ensures Step(w, a).options == w.options && Step(w, a).inputSize != 0
  {
  }

  /** Once a write of at least one byte has completed, no setter of the run changes anything. */
  lemma {:induction false} DataFixesGeometry(run: seq<Writer>, actions: seq<Action>, j: nat, n: nat)
    requires IsRun(run, actions) && IsNew(run[0]) && j < n <= |actions|
    requires Completes(run[j], actions[j]) && EndOf(run[j], actions[j]) > 0
    ensures run[n].options == run[j].options && run[n].inputSize != 0
    decreases n - j
  {
    hide Step, Completes, EndOf;
    assert Steps(run[n - 1], actions[n - 1], run[n]);
    if n == j + 1 {
      InputSizeIsLargestEnd(run, actions, n);
      CompletedIsNoSetter(run[j], actions[j]);
    } else {
      DataFixesGeometry(run, actions, j, n - 1);
      DataFixesOptions(run[n - 1], actions[n - 1]);
    }
  }

  lemma CompletedIsNoSetter(w: Writer, a: Action)
    requires w.chunkSize > 0 && Completes(w, a)
    ensures Step(w, a).options == w.options
  {
  }

  /** Before data is written, each setter does what it is asked, if the options allow it. */
  lemma SettersWorkBeforeData(w: Writer, a: Action)
    requires w.chunkSize > 0 && w.inputSize == 0
    ensures var t, o := Step(w, a), w.options;
            match a
            case DoSetSectorsPerChunk(n) =>
              TakesEffect(w, t, o.(sectorsPerChunk := n), o.(sectorsPerChunk := n).Accepted())
            case DoSetBytesPerSector(n) =>
              TakesEffect(w, t, o.(bytesPerSector := n), o.(bytesPerSector := n).Accepted())
            case DoSetFormat(f) => TakesEffect(w, t, o.(format := f), o.(format := f).Accepted())
            case DoSetCompressionMethod(c) =>
              TakesEffect(w, t, o.(compression := c), c.Bzipped? ==> o.IsEwf2())
            case DoSetCompressionValues(l, e) => TakesEffect(w, t, o.(level := l, emptyBlock := e), true)
            case DoSetMediaSize(m) =>
              && TakesEffect(w, t, o.(mediaSize := t.options.mediaSize), true)
              && (t.options.mediaSize == if m == 0 then None else Some(m))
            case _ => t.options == o
  {
  }

  ghost predicate TakesEffect(w: Writer, t: Writer, asked: Options, allowed: bool) {
    if allowed then t.options == asked else t == w
  }

  // ---------------------------------------------------------------- chunks handed over encoded

  /** The reader of this format takes the chunk as it is: right encoding, size and checksum. */
  predicate CanBeKept(c: EncodedData, options: Options, chunkSize: nat) {
    && c.logicalSize <= chunkSize && SizeAccepted(c.encodedSize, chunkSize, c.encoding).Ok?
    && match c.encoding
       case RawData => c.hasChecksum ==> RawChecksumIsValid(c)
       case ZlibData => !options.compression.Bzipped?
       case ZstdData => false
       case Bzip2Data => options.IsEwf2() && options.compression.Bzipped?
       case PatternFill(_) => options.IsEwf2()
  }

  /** Operation `a` neither writes into chunk `k` nor hands another chunk over for it. */
  ghost predicate Avoids(w: Writer, a: Action, k: nat)
    requires w.chunkSize > 0
  {
    var attempt := AttemptOf(w.lib, a);
    attempt.Attempt? && Fits(w, attempt.data) ==>
      && (forall p: nat | w.offset <= p < w.offset + |attempt.data| :: ChunkAt(p, w.chunkSize) != k)
      && (a.DoWriteEncoded? ==> ChunkAt(w.offset, w.chunkSize) != k)
  }

  /** The chunk is emitted with the caller's bytes, or as the caller's pattern. */
  predicate IsAsGiven(e: EncodedChunk, c: EncodedData) {
    && e.bytes == (if c.encoding.PatternFill? then [] else c.data)
    && e.pattern == (if c.encoding.PatternFill? then Some(c.encoding.pattern) else None)
    && e.compressed == !c.encoding.RawData?
  }

  /** A range that reaches from before chunk `k` to behind it has a position in it. */
  lemma SomePositionIsIn(chunkSize: nat, start: nat, end: nat, k: nat)
    requires chunkSize > 0 && start < end && start / chunkSize <= k <= (end - 1) / chunkSize
    ensures exists p: nat :: start <= p < end && ChunkAt(p, chunkSize) == k
  {
    var first := k * chunkSize;
    MediaReads.PositionInChunk(chunkSize, k, 0);
    if start <= first {
      assert end - 1 == chunkSize * ((end - 1) / chunkSize) + (end - 1) % chunkSize;
      MediaReads.ProductIsMonotone(chunkSize, k, (end - 1) / chunkSize);
      assert ChunkAt(first, chunkSize) == k;
    } else {
      MediaReads.QuotientIsMonotone(chunkSize, first, start);
      assert ChunkAt(start, chunkSize) == k;
    }
  }

  lemma ForgetLeaves(encoded: map<nat, Remembered>, chunkSize: nat, start: nat, end: nat, k: nat)
    requires chunkSize > 0 && forall p: nat | start <= p < end :: ChunkAt(p, chunkSize) != k
    ensures k in Forget(encoded, chunkSize, start, end) <==> k in encoded
    ensures k in encoded ==> Forget(encoded, chunkSize, start, end)[k] == encoded[k]
  {
    if start < end && start / chunkSize <= k <= (end - 1) / chunkSize { SomePositionIsIn(chunkSize, start, end, k); }
  }

  lemma AvoidedStays(w: Writer, a: Action, k: nat)
    requires w.chunkSize > 0 && w.inputSize != 0 && Avoids(w, a, k) && k in w.encoded
    ensures k in Step(w, a).encoded && Step(w, a).encoded[k] == w.encoded[k]
    ensures Step(w, a).options == w.options && Step(w, a).chunkSize == w.chunkSize
  {
    hide Forget, DecodeGiven, Remember, WriteSpool;
    var attempt := AttemptOf(w.lib, a);
    if attempt.Attempt? && Fits(w, attempt.data) {
      ForgetLeaves(w.encoded, w.chunkSize, w.offset, w.offset + |attempt.data|, k);
    }
  }

  /** The operation hands over a chunk that can be kept, at the start of its place in the media. */
  predicate HandsOver(w: Writer, a: Action, c: EncodedData)
    requires w.chunkSize > 0
  {
    && a == DoWriteEncoded(c, Complete) && Completes(w, a) && c.logicalSize > 0
    && CanBeKept(c, w.options, w.chunkSize) && w.offset % w.chunkSize == 0
  }

  /** The writer remembers `c` for chunk `k`, under the options of `before`. */
  predicate Keeps(w: Writer, k: nat, c: EncodedData, before: Writer) {
    && w.options == before.options && w.chunkSize == before.chunkSize
    && k in w.encoded && w.encoded[k].logicalSize == c.logicalSize && w.encoded[k].encoding == c.encoding
    && IsAsGiven(w.encoded[k].encoded, c)
  }

  lemma GivenIsRemembered(w: Writer, c: EncodedData)
    requires Coherent(w) && HandsOver(w, DoWriteEncoded(c, Complete), c)
    ensures Keeps(Step(w, DoWriteEncoded(c, Complete)), ChunkAt(w.offset, w.chunkSize), c, w)
    ensures EndOf(w, DoWriteEncoded(c, Complete)) > 0
  {
    hide WriteSpool, Forget, RawChecksumIsValid, SizeAccepted, DecodeChunk, Coheres;
  }

  lemma AvoidedKeeps(w: Writer, a: Action, k: nat, c: EncodedData, before: Writer)
    requires w.chunkSize > 0 && w.inputSize != 0 && Avoids(w, a, k) && Keeps(w, k, c, before)
    ensures Keeps(Step(w, a), k, c, before)
  {
    hide Step, Avoids, IsAsGiven;
    AvoidedStays(w, a, k);
  }

  /** The operations from `j` up to `n` avoid chunk `k`. */
  ghost predicate AllAvoid(run: seq<Writer>, actions: seq<Action>, j: nat, n: nat, k: nat)
    requires n <= |actions| <= |run|
  {
    forall m | j <= m < n :: run[m].chunkSize > 0 && Avoids(run[m], actions[m], k)
  }

  lemma LastAvoids(run: seq<Writer>, actions: seq<Action>, j: nat, n: nat, k: nat)
    requires j < n <= |actions| <= |run| && AllAvoid(run, actions, j, n, k)
    ensures AllAvoid(run, actions, j, n - 1, k)
    ensures run[n - 1].chunkSize > 0 && Avoids(run[n - 1], actions[n - 1], k)
  {
    hide Avoids;
  }

  lemma HandedOver(w: Writer, a: Action, c: EncodedData)
    requires w.chunkSize > 0 && HandsOver(w, a, c)
    ensures a == DoWriteEncoded(c, Complete) && Completes(w, a)
  {
  }

  lemma StepOf(run: seq<Writer>, actions: seq<Action>, m: nat)
    requires IsRun(run, actions) && m < |actions|
    ensures run[m].chunkSize > 0 && run[m + 1] == Step(run[m], actions[m])
  {
    assert Steps(run[m], actions[m], run[m + 1]);
  }

  lemma HandedOverAt(run: seq<Writer>, actions: seq<Action>, j: nat, c: EncodedData)
    requires IsRun(run, actions) && j < |actions| && run[j].chunkSize > 0 && HandsOver(run[j], actions[j], c)
    ensures Keeps(run[j + 1], ChunkAt(run[j].offset, run[j].chunkSize), c, run[j])
    ensures Completes(run[j], actions[j]) && EndOf(run[j], actions[j]) > 0
  {
    EveryRunIsCoherent(run, actions, j);
    HandedOver(run[j], actions[j], c);
    StepOf(run, actions, j);
    hide Step, Keeps, Completes, EndOf, HandsOver, Coherent, IsRun;
    GivenIsRemembered(run[j], c);
  }

  lemma KeptAgain(run: seq<Writer>, actions: seq<Action>, j: nat, n: nat, k: nat, c: EncodedData)
    requires IsRun(run, actions) && IsNew(run[0]) && j < n < |actions|
    requires Completes(run[j], actions[j]) && EndOf(run[j], actions[j]) > 0
    requires Keeps(run[n], k, c, run[j]) && run[n].chunkSize > 0 && Avoids(run[n], actions[n], k)
    ensures Keeps(run[n + 1], k, c, run[j])
  {
    StepOf(run, actions, n);
    hide Step, Keeps, Completes, EndOf, Avoids;
    DataFixesGeometry(run, actions, j, n);
    AvoidedKeeps(run[n], actions[n], k, c, run[j]);
  }

  /** A chunk a caller hands over encoded, at the start of a chunk and fit for the format, is kept
      until something else is written there. */
  lemma {:induction false} GivenStaysRemembered(run: seq<Writer>, actions: seq<Action>, j: nat, n: nat, c: EncodedData)
    requires IsRun(run, actions) && IsNew(run[0]) && j < n <= |actions|
    requires run[j].chunkSize > 0 && HandsOver(run[j], actions[j], c)
    requires AllAvoid(run, actions, j + 1, n, ChunkAt(run[j].offset, run[j].chunkSize))
    ensures Keeps(run[n], ChunkAt(run[j].offset, run[j].chunkSize), c, run[j])
    decreases n - j
  {
    hide Keeps, Completes, EndOf, HandsOver, Avoids, Steps, Coherent, ChunkAt, IsNew;
    HandedOverAt(run, actions, j, c);
    if n > j + 1 {
      LastAvoids(run, actions, j + 1, n, ChunkAt(run[j].offset, run[j].chunkSize));
      GivenStaysRemembered(run, actions, j, n - 1, c);
      KeptAgain(run, actions, j, n - 1, ChunkAt(run[j].offset, run[j].chunkSize), c);
    }
  }

  /** And then it is what the image holds for that chunk: it is not decoded and encoded anew. */
  lemma GivenIsEmitted(run: seq<Writer>, actions: seq<Action>, j: nat, n: nat, c: EncodedData, logical: nat)
    requires IsRun(run, actions) && IsNew(run[0]) && j < n <= |actions|
    requires run[j].chunkSize > 0 && HandsOver(run[j], actions[j], c)
    requires AllAvoid(run, actions, j + 1, n, ChunkAt(run[j].offset, run[j].chunkSize))
    requires |MediaChunk(run[n], logical, ChunkAt(run[j].offset, run[j].chunkSize))| == c.logicalSize
    ensures var e := EmittedChunk(run[n], logical, ChunkAt(run[j].offset, run[j].chunkSize));
            e.Ok? && IsAsGiven(e.value, c)
  {
    GivenStaysRemembered(run, actions, j, n, c);
    KeptIsCompatible(c, run[j].options, run[j].chunkSize);
    hide IsRun, CanBeKept, Completes, MediaChunk, IsAsGiven, AllAvoid, Compatible;
  }

  lemma KeptIsCompatible(c: EncodedData, options: Options, chunkSize: nat)
    requires CanBeKept(c, options, chunkSize)
    ensures Compatible(c.encoding, options)
  {
  }
}
