/** The writer's raw spool and the encoded chunks it remembers (src/writer.rs, `EwfWriter`). A
    remembered chunk saves encoding the same bytes again; it must never stand for other bytes. */
module ChunkWriter {
  import opened Basics
  import opened ChunkCodec
  import opened ChunkIndex
  import opened MediaReads

  datatype Format = Ewf1Physical | Ewf1Logical | Ewf1Smart | Ewf2Physical | Ewf2Logical

  datatype Options = Options(format: Format, sectorsPerChunk: nat, bytesPerSector: nat, mediaSize: Option<nat>,
                             compression: Compression, level: Level, emptyBlock: bool)
  {
    predicate IsEwf2() { format.Ewf2Physical? || format.Ewf2Logical? }
    function ChunkSize(): nat { sectorsPerChunk * bytesPerSector }
    function Encode(): EncodeOptions { EncodeOptions(compression, level, emptyBlock, IsEwf2()) }
    /** `validate_options`, as far as it concerns chunks. */
    predicate Accepted() {
      && 0 < sectorsPerChunk < U32 && 0 < bytesPerSector < U32
      && (format.Ewf2Logical? ==> ChunkSize() >= 8192)
      && (compression.Bzipped? ==> IsEwf2() && !level.NoLevel?)
    }
  }

  /** An already encoded chunk a caller hands over; a pattern is 64 bits. */
  datatype GivenChunk = Given(encoding: Encoding, logicalSize: nat, encodedSize: nat, hasChecksum: bool, data: Bytes)
  type EncodedData = c: GivenChunk | c.encoding.PatternFill? ==> c.encoding.pattern < U64
    witness Given(RawData, 0, 0, false, [])

  datatype Remembered = Remembered(logicalSize: nat, encoding: Encoding, encoded: EncodedChunk)

  /** `file` and `length` are the raw spool: only its first `length` bytes are read, so that
      bytes of a failed write past it stay hidden. */
  datatype Writer = Writer(lib: Library, options: Options, chunkSize: nat, file: Bytes, length: nat,
                           encoded: map<nat, Remembered>, offset: nat, inputSize: nat)
  {
    function Spool(): Bytes { Visible(file, length) }
  }

  // ---------------------------------------------------------------- the raw spool

  function Visible(file: Bytes, length: nat): Bytes {
    if length <= |file| then file[..length] else file
  }

  function SpoolByte(raw: Bytes, p: nat): Byte { if p < |raw| then raw[p] else 0 }

  /** `read_at_filling_zeroes` */
  function SpoolSlice(raw: Bytes, offset: nat, n: nat): (b: Bytes)
    ensures |b| == n
  {
    seq<Byte>(n, i requires 0 <= i < n => SpoolByte(raw, offset + i))
  }

  /** `RawSpool::write_at`: a gap before `offset` reads as zeros. */
  function WriteSpool(raw: Bytes, offset: nat, data: Bytes): Bytes {
    if data == [] then raw
    else
      var padded := if |raw| < offset then raw + Zeros(offset - |raw|) else raw;
      padded[..offset] + data + (if offset + |data| < |padded| then padded[offset + |data|..] else [])
  }

  lemma WrittenByte(raw: Bytes, offset: nat, data: Bytes, p: nat)
    ensures SpoolByte(WriteSpool(raw, offset, data), p)
            == if offset <= p < offset + |data| then data[p - offset] else SpoolByte(raw, p)
  {}

  lemma SlicesAgree(a: Bytes, b: Bytes, start: nat, n: nat)
    requires forall p | start <= p < start + n :: SpoolByte(a, p) == SpoolByte(b, p)
    ensures SpoolSlice(a, start, n) == SpoolSlice(b, start, n)
  {}

  lemma VisibleByte(file: Bytes, length: nat, p: nat)
    requires p < length <= |file|
    ensures SpoolByte(Visible(file, length), p) == SpoolByte(file, p)
  {}

  lemma SpoolGrows(file: Bytes, offset: nat, data: Bytes)
    ensures |file| <= |WriteSpool(file, offset, data)|
    ensures data != [] ==> offset + |data| <= |WriteSpool(file, offset, data)|
  {}

  /** Bytes that could be read, outside a write, are as they were, whatever was hidden. */
  lemma OtherSlice(file: Bytes, length: nat, offset: nat, data: Bytes, length': nat, start: nat, n: nat)
    requires start + n <= length <= |file| && length <= length' <= |WriteSpool(file, offset, data)|
    requires start + n <= offset || offset + |data| <= start
    ensures SpoolSlice(Visible(WriteSpool(file, offset, data), length'), start, n)
            == SpoolSlice(Visible(file, length), start, n)
  {
    hide WriteSpool, SpoolByte, Visible;
    var written := WriteSpool(file, offset, data);
    forall p | start <= p < start + n
      ensures SpoolByte(Visible(written, length'), p) == SpoolByte(Visible(file, length), p)
    {
      WrittenByte(file, offset, data, p);
      VisibleByte(file, length, p);
      VisibleByte(written, length', p);
    }
    SlicesAgree(Visible(written, length'), Visible(file, length), start, n);
  }

  /** Bytes just written read back. */
  lemma WrittenSlice(file: Bytes, offset: nat, data: Bytes, length: nat)
    requires offset + |data| <= length <= |WriteSpool(file, offset, data)| || data == []
    ensures SpoolSlice(Visible(WriteSpool(file, offset, data), length), offset, |data|) == data
  {
    hide WriteSpool, Visible;
    var slice := SpoolSlice(Visible(WriteSpool(file, offset, data), length), offset, |data|);
    forall i | 0 <= i < |data| ensures slice[i] == data[i] {
      WrittenByte(file, offset, data, offset + i);
      VisibleByte(WriteSpool(file, offset, data), length, offset + i);
    }
  }

  // ---------------------------------------------------------------- remembering and forgetting

  predicate Compatible(encoding: Encoding, options: Options) {
    match encoding
    case RawData => true
    case ZlibData => !options.compression.Bzipped?
    case ZstdData => false
    case Bzip2Data => options.IsEwf2() && options.compression.Bzipped?
    case PatternFill(_) => options.IsEwf2()
  }

  predicate RawChecksumIsValid(c: EncodedData) {
    |c.data| == c.logicalSize + 4 && c.data[c.logicalSize..] == Le(Adler32(c.data[..c.logicalSize]), 4)
  }

  /** `remembered_encoded_data_chunk` */
  function Remember(c: EncodedData, options: Options, chunkSize: nat, offset: nat, decodedSize: nat): Option<Remembered>
    requires chunkSize > 0
  {
    if offset % chunkSize != 0 || decodedSize != c.logicalSize || decodedSize > chunkSize then None
    else if !Compatible(c.encoding, options) || SizeAccepted(c.encodedSize, chunkSize, c.encoding).Err? then None
    else
      match c.encoding
      case RawData =>
        if c.hasChecksum && !RawChecksumIsValid(c) then None
        else Some(Remembered(decodedSize, c.encoding, EncodedChunk(c.data, false, c.hasChecksum, None)))
      case ZstdData => None
      case PatternFill(pattern) => Some(Remembered(decodedSize, c.encoding,
                                                   EncodedChunk([], true, false, Some(pattern))))
      case _ => Some(Remembered(decodedSize, c.encoding, EncodedChunk(c.data, true, false, None)))
  }

  /** `forget_encoded_chunks_in_range` */
  function Forget(encoded: map<nat, Remembered>, chunkSize: nat, start: nat, end: nat): map<nat, Remembered>
    requires chunkSize > 0
  {
    if start >= end then encoded
    else map i | i in encoded && !(start / chunkSize <= i <= (end - 1) / chunkSize) :: encoded[i]
  }

  // ---------------------------------------------------------------- the operations

  /** Whether writing the spool succeeds, or fails after its first bytes. */
  datatype Io = Complete | Torn(bytes: nat)

  /** `RawSpool::write_at` on the whole spool: a failed write may leave some of its bytes. */
  function Spooled(w: Writer, data: Bytes, io: Io): Writer {
    match io
    case Torn(n) => w.(file := WriteSpool(w.file, w.offset, data[..Min(n, |data|)]))
    case Complete =>
      w.(file := WriteSpool(w.file, w.offset, data),
         length := if data == [] || w.length > w.offset + |data| then w.length else w.offset + |data|)
  }

  /** `write_to_current` */
  function Written(w: Writer, data: Bytes, io: Io): (r: (Writer, bool))
    requires w.chunkSize > 0
  {
    var end := w.offset + |data|;
    if end >= U64 || (w.options.mediaSize.Some? && end > w.options.mediaSize.value) then (w, false)
    else
      var spooled := Spooled(w.(encoded := Forget(w.encoded, w.chunkSize, w.offset, end)), data, io);
      if io.Torn? then (spooled, false)
      else (spooled.(offset := end, inputSize := if w.inputSize < end then end else w.inputSize), true)
  }

  function DecodeGiven(lib: Library, c: EncodedData): Result<Bytes> {
    if c.encoding.ZstdData? || |c.data| != c.encodedSize then Err
    else DecodeChunk(lib, c.data, c.encoding, c.logicalSize, c.logicalSize)
  }

  function ChunkAt(offset: nat, chunkSize: nat): nat
    requires chunkSize > 0
  {
    offset / chunkSize
  }

  /** `write_encoded_data_chunk` at the current position. */
  function WriteEncoded(w: Writer, c: EncodedData, io: Io): (r: (Writer, bool))
    requires w.chunkSize > 0
  {
    var data := DecodeGiven(w.lib, c);
    if data.Err? then (w, false)
    else
      var (written, ok) := Written(w, data.value, io);
      if !ok then (written, false)
      else
        var remembered := Remember(c, w.options, w.chunkSize, w.offset, |data.value|);
        if remembered.None? then (written, true)
        else (written.(encoded := written.encoded[ChunkAt(w.offset, w.chunkSize) := remembered.value]), true)
  }

  /** The geometry setters: only before data is written, and nothing stays remembered. */
  function SetGeometry(w: Writer, options: Options): (r: (Writer, bool)) {
    if w.inputSize != 0 || !options.Accepted() then (w, false)
    else (w.(options := options, chunkSize := options.ChunkSize(), encoded := map[]), true)
  }

  function SetFormat(w: Writer, format: Format): (r: (Writer, bool)) {
    var options := w.options.(format := format);
    if w.inputSize != 0 || !options.Accepted() then (w, false) else (w.(options := options), true)
  }

  function SetCompressionMethod(w: Writer, compression: Compression): (r: (Writer, bool)) {
    if w.inputSize != 0 || (compression.Bzipped? && !w.options.IsEwf2()) then (w, false)
    else (w.(options := w.options.(compression := compression)), true)
  }

  function SetCompressionValues(w: Writer, level: Level, emptyBlock: bool): (r: (Writer, bool)) {
    if w.inputSize != 0 then (w, false)
    else (w.(options := w.options.(level := level, emptyBlock := emptyBlock)), true)
  }

  /** A size of zero means no declared size. */
  function SetMediaSize(w: Writer, size: nat): (r: (Writer, bool)) {
    if w.inputSize != 0 then (w, false)
    else (w.(options := w.options.(mediaSize := if size == 0 then None else Some(size))), true)
  }

  /** `copy_media_values_from_info`: changes the geometry without the guard and without clearing. */
  function CopyMediaValues(w: Writer, options: Options): (r: (Writer, bool)) {
    if !options.Accepted() || (options.mediaSize.Some? && w.inputSize > options.mediaSize.value) then (w, false)
    else (w.(options := options, chunkSize := options.ChunkSize()), true)
  }

  /** `target_media_input_size`: the declared size, or without one the size of the input. */
  function TargetSize(w: Writer): Result<nat> {
    match w.options.mediaSize
    case None => Ok(w.inputSize)
    case Some(m) => if w.inputSize > m then Err else Ok(m)
  }

  datatype SeekFrom = Start(offset: nat) | Current(delta: int) | End(delta: int)

  /** `seek_position`: any position from 0 that fits 64 bits. */
  function Seek(w: Writer, seek: SeekFrom): (r: (Writer, bool)) {
    if TargetSize(w).Err? then (w, false)
    else
      var next := match seek
                  case Start(offset) => offset
                  case Current(delta) => w.offset + delta
                  case End(delta) => TargetSize(w).value + delta;
      if 0 <= next < U64 then (w.(offset := next), true) else (w, false)
  }

  datatype Action =
    | DoWrite(data: Bytes, io: Io)
    | DoWriteEncoded(chunk: EncodedData, io: Io)
    | DoSeek(seek: SeekFrom)
    | DoSetSectorsPerChunk(sectors: nat)
    | DoSetBytesPerSector(bytes: nat)
    | DoSetFormat(format: Format)
    | DoSetCompressionMethod(compression: Compression)
    | DoSetCompressionValues(level: Level, emptyBlock: bool)
    | DoSetMediaSize(size: nat)

  function Step(w: Writer, a: Action): Writer
    requires w.chunkSize > 0
  {
    match a
    case DoWrite(data, io) => Written(w, data, io).0
    case DoWriteEncoded(chunk, io) => WriteEncoded(w, chunk, io).0
    case DoSeek(seek) => Seek(w, seek).0
    case DoSetSectorsPerChunk(sectors) => SetGeometry(w, w.options.(sectorsPerChunk := sectors)).0
    case DoSetBytesPerSector(bytes) => SetGeometry(w, w.options.(bytesPerSector := bytes)).0
    case DoSetFormat(format) => SetFormat(w, format).0
    case DoSetCompressionMethod(compression) => SetCompressionMethod(w, compression).0
    case DoSetCompressionValues(level, emptyBlock) => SetCompressionValues(w, level, emptyBlock).0
    case DoSetMediaSize(size) => SetMediaSize(w, size).0
  }

  // ---------------------------------------------------------------- coherence

  /** The encoded form has the shape its encoding calls for. */
  predicate Shaped(r: Remembered) {
    && r.encoded.compressed == !r.encoding.RawData?
    && r.encoded.pattern == (if r.encoding.PatternFill? then Some(r.encoding.pattern) else None)
    && (r.encoded.hasChecksum ==> r.encoding.RawData?)
  }

  /** What is remembered for chunk `i` decodes to the spool's bytes there. */
  ghost predicate Coheres(lib: Library, raw: Bytes, chunkSize: nat, i: nat, r: Remembered) {
    && r.logicalSize <= chunkSize
    && (r.logicalSize > 0 ==> i * chunkSize + r.logicalSize <= |raw|)
    && Shaped(r)
    && DecodeChunk(lib, r.encoded.bytes, r.encoding, r.logicalSize, r.logicalSize)
        == Ok(SpoolSlice(raw, i * chunkSize, r.logicalSize))
    && (r.encoded.hasChecksum ==> TrailerAccepted(r.encoded.bytes, r.logicalSize))
  }

  /** The reader will accept the size of what is remembered. */
  predicate Capped(r: Remembered, chunkSize: nat) {
    SizeAccepted(|r.encoded.bytes|, chunkSize, r.encoding).Ok? && (r.encoding.PatternFill? ==> r.encoding.pattern < U64)
  }

  ghost predicate AllCapped(w: Writer) {
    forall i <- w.encoded :: Capped(w.encoded[i], w.chunkSize)
  }

  ghost predicate Coherent(w: Writer) {
    && w.options.sectorsPerChunk > 0 && w.options.bytesPerSector > 0
    && w.chunkSize == w.options.ChunkSize() > 0
    && (w.options.compression.Bzipped? ==> w.options.IsEwf2())
    && w.length <= |w.file|
    && forall i <- w.encoded :: Coheres(w.lib, w.Spool(), w.chunkSize, i, w.encoded[i])
  }

  /** A chunk outside the chunks a write touches lies outside its bytes. */
  lemma UntouchedChunk(chunkSize: nat, start: nat, end: nat, i: nat, n: nat)
    requires chunkSize > 0 && start < end && n <= chunkSize
    requires !(start / chunkSize <= i <= (end - 1) / chunkSize)
    ensures i * chunkSize + n <= start || end <= i * chunkSize
  {
    var first, last := start / chunkSize, (end - 1) / chunkSize;
    assert start == chunkSize * first + start % chunkSize;
    assert end - 1 == chunkSize * last + (end - 1) % chunkSize;
    if i < first {
      ProductIsMonotone(chunkSize, i + 1, first);
      assert chunkSize * (i + 1) == i * chunkSize + chunkSize;
    } else {
      ProductIsMonotone(chunkSize, last + 1, i);
      assert chunkSize * (last + 1) == chunkSize * last + chunkSize;
    }
  }

  lemma CoheresElsewhere(lib: Library, file: Bytes, length: nat, chunkSize: nat, offset: nat, data: Bytes, length': nat,
                         i: nat, r: Remembered)
    requires chunkSize > 0 && length <= |file| && Coheres(lib, Visible(file, length), chunkSize, i, r)
    requires length <= length' <= |WriteSpool(file, offset, data)|
    requires data == [] || !(offset / chunkSize <= i <= (offset + |data| - 1) / chunkSize)
    ensures Coheres(lib, Visible(WriteSpool(file, offset, data), length'), chunkSize, i, r)
  {
    hide DecodeChunk, Shaped, TrailerAccepted, SpoolSlice, WriteSpool;
    if r.logicalSize == 0 {
      EmptySlices(Visible(file, length), Visible(WriteSpool(file, offset, data), length'), i * chunkSize);
    } else {
      if data != [] { UntouchedChunk(chunkSize, offset, offset + |data|, i, r.logicalSize); }
      assert i * chunkSize + r.logicalSize <= offset || offset + |data| <= i * chunkSize || data == [];
      ReadableSlice(file, length, offset, data, length', i * chunkSize, r.logicalSize);
    }
  }

  lemma EmptySlices(a: Bytes, b: Bytes, start: nat)
    ensures SpoolSlice(a, start, 0) == SpoolSlice(b, start, 0)
  {}

  lemma ReadableSlice(file: Bytes, length: nat, offset: nat, data: Bytes, length': nat, start: nat, n: nat)
    requires start + n <= length <= |file| && length <= length' <= |WriteSpool(file, offset, data)|
    requires start + n <= offset || offset + |data| <= start || data == []
    ensures SpoolSlice(Visible(WriteSpool(file, offset, data), length'), start, n)
            == SpoolSlice(Visible(file, length), start, n)
  {
    if data == [] {
      SlicesAgree(Visible(file, length'), Visible(file, length), start, n);
    } else {
      OtherSlice(file, length, offset, data, length', start, n);
    }
  }

  /** Spooling keeps every entry that is not touched, even when the write fails half-way. */
  lemma SpoolingCoheres(w: Writer, data: Bytes, io: Io, i: nat, r: Remembered)
    requires w.chunkSize > 0 && w.length <= |w.file| && Coheres(w.lib, w.Spool(), w.chunkSize, i, r)
    requires data == [] || !(w.offset / w.chunkSize <= i <= (w.offset + |data| - 1) / w.chunkSize)
    ensures Coheres(w.lib, Spooled(w, data, io).Spool(), w.chunkSize, i, r)
  {
    hide Coheres, WriteSpool, Visible;
    var done := if io.Torn? then data[..Min(io.bytes, |data|)] else data;
    SpoolGrows(w.file, w.offset, done);
    if done != [] && |done| < |data| {
      QuotientIsMonotone(w.chunkSize, w.offset + |done| - 1, w.offset + |data| - 1);
    }
    CoheresElsewhere(w.lib, w.file, w.length, w.chunkSize, w.offset, done, Spooled(w, data, io).length, i, r);
  }

  lemma WriteKeepsCoherent(w: Writer, data: Bytes, io: Io)
    requires Coherent(w)
    ensures Coherent(Written(w, data, io).0)
  {
    hide Coheres, WriteSpool, Visible;
    var end := w.offset + |data|;
    if end < U64 && (w.options.mediaSize.None? || end <= w.options.mediaSize.value) {
      var t := Written(w, data, io).0;
      SpoolGrows(w.file, w.offset, data);
      if io.Torn? { SpoolGrows(w.file, w.offset, data[..Min(io.bytes, |data|)]); }
      forall i <- t.encoded ensures Coheres(w.lib, t.Spool(), w.chunkSize, i, t.encoded[i]) {
        SpoolingCoheres(w, data, io, i, w.encoded[i]);
      }
    }
  }

  /** What a decoded chunk is remembered as coheres with the bytes just written for it. */
  lemma RememberedCoheres(w: Writer, c: EncodedData)
    requires w.chunkSize > 0 && w.length <= |w.file| && DecodeGiven(w.lib, c).Ok?
    requires Remember(c, w.options, w.chunkSize, w.offset, |DecodeGiven(w.lib, c).value|).Some?
    ensures var data := DecodeGiven(w.lib, c).value;
            Coheres(w.lib, Spooled(w, data, Complete).Spool(), w.chunkSize, w.offset / w.chunkSize,
                    Remember(c, w.options, w.chunkSize, w.offset, |data|).value)
  {
    hide WriteSpool, SpoolSlice, Visible, Remember, DecodeGiven, DecodeChunk, Shaped, TrailerAccepted;
    var data := DecodeGiven(w.lib, c).value;
    RememberedForm(w.lib, c, w.options, w.chunkSize, w.offset);
    SpoolGrows(w.file, w.offset, data);
    WrittenSlice(w.file, w.offset, data, Spooled(w, data, Complete).length);
    VisibleSize(WriteSpool(w.file, w.offset, data), Spooled(w, data, Complete).length);
  }

  lemma VisibleSize(file: Bytes, length: nat)
    requires length <= |file|
    ensures |Visible(file, length)| == length
  {}

  /** The remembered form, by itself, decodes to what the caller's chunk decodes to. */
  lemma RememberedForm(lib: Library, c: EncodedData, options: Options, chunkSize: nat, offset: nat)
    requires chunkSize > 0 && DecodeGiven(lib, c).Ok?
            && Remember(c, options, chunkSize, offset, |DecodeGiven(lib, c).value|).Some?
    ensures var data := DecodeGiven(lib, c).value;
            var r := Remember(c, options, chunkSize, offset, |data|).value;
            && offset / chunkSize * chunkSize == offset && r.logicalSize == |data| <= chunkSize && Shaped(r)
            && DecodeChunk(lib, r.encoded.bytes, r.encoding, r.logicalSize, r.logicalSize) == Ok(data)
            && (r.encoded.hasChecksum ==> TrailerAccepted(r.encoded.bytes, r.logicalSize))
            && Capped(r, chunkSize)
  {
    if c.hasChecksum && RawChecksumIsValid(c) { ValidTrailer(c); }
    hide Adler32, RawCap, ZlibCap, Bzip2Cap, DoubleCap, TrailerAccepted, Compatible;
    DivisionIsExact(offset, chunkSize);
  }

  lemma DivisionIsExact(offset: nat, chunkSize: nat)
    requires chunkSize > 0 && offset % chunkSize == 0
    ensures offset / chunkSize * chunkSize == offset
  {}

  lemma ValidTrailer(c: EncodedData)
    requires RawChecksumIsValid(c)
    ensures TrailerAccepted(c.data, c.logicalSize)
  {
    Le4RoundTrip(Adler32(c.data[..c.logicalSize]));
    assert c.data[c.logicalSize..c.logicalSize + 4] == c.data[c.logicalSize..];
  }

  lemma WriteEncodedKeepsCoherent(w: Writer, c: EncodedData, io: Io)
    requires Coherent(w)
    ensures Coherent(WriteEncoded(w, c, io).0)
  {
    hide Coheres, WriteSpool, DecodeGiven, Remember;
    var data := DecodeGiven(w.lib, c);
    if data.Ok? {
      WriteKeepsCoherent(w, data.value, io);
      if Written(w, data.value, io).1 && Remember(c, w.options, w.chunkSize, w.offset, |data.value|).Some? {
        RememberedCoheres(w, c);
      }
    }
  }

  lemma StepKeepsCoherent(w: Writer, a: Action)
    requires Coherent(w)
    ensures Coherent(Step(w, a))
  {
    hide Coheres, Written, WriteEncoded;
    match a
    case DoWrite(data, io) => WriteKeepsCoherent(w, data, io);
    case DoWriteEncoded(chunk, io) => WriteEncodedKeepsCoherent(w, chunk, io);
    case DoSetSectorsPerChunk(sectors) => SetGeometryKeepsCoherent(w, w.options.(sectorsPerChunk := sectors));
    case DoSetBytesPerSector(bytes) => SetGeometryKeepsCoherent(w, w.options.(bytesPerSector := bytes));
    case _ =>
  }

  lemma SetGeometryKeepsCoherent(w: Writer, options: Options)
    requires Coherent(w)
    ensures Coherent(SetGeometry(w, options).0)
  {
    if options.Accepted() { GeometryIsPositive(options); }
  }

  lemma GeometryIsPositive(options: Options)
    requires options.Accepted()
    ensures options.ChunkSize() > 0
  {
    ProductGrows(options.sectorsPerChunk, options.bytesPerSector);
  }

  ghost predicate Steps(w: Writer, a: Action, t: Writer) {
    w.chunkSize > 0 && t == Step(w, a)
  }

  /** A run from a writer that remembers nothing. */
  ghost predicate IsRun(run: seq<Writer>, actions: seq<Action>) {
    && |run| == |actions| + 1
    && run[0].encoded == map[] && Coherent(run[0])
    && forall k | 0 <= k < |actions| :: Steps(run[k], actions[k], run[k + 1])
  }

  /** After any run of writes, seeks, encoded-chunk writes and guarded setters, everything
      remembered decodes to the spool. */
  lemma {:induction false} EveryRunIsCoherent(run: seq<Writer>, actions: seq<Action>, k: nat)
    requires IsRun(run, actions) && k < |run|
    ensures Coherent(run[k])
  {
    hide Coherent, Step;
    if k > 0 {
      EveryRunIsCoherent(run, actions, k - 1);
      assert Steps(run[k - 1], actions[k - 1], run[k]);
      StepKeepsCoherent(run[k - 1], actions[k - 1]);
    }
  }

  /** So does every run keep what is remembered within the reader's size caps. */
  lemma {:induction false} EveryRunIsCapped(run: seq<Writer>, actions: seq<Action>, k: nat)
    requires IsRun(run, actions) && k < |run|
    ensures AllCapped(run[k])
  {
    if k > 0 {
      EveryRunIsCapped(run, actions, k - 1);
      assert Steps(run[k - 1], actions[k - 1], run[k]);
      StepKeepsCapped(run[k - 1], actions[k - 1]);
    }
  }

  lemma StepKeepsCapped(w: Writer, a: Action)
    requires w.chunkSize > 0 && AllCapped(w)
    ensures AllCapped(Step(w, a))
  {
    hide Capped, WriteSpool, DecodeGiven, Remember;
    if a.DoWriteEncoded? && DecodeGiven(w.lib, a.chunk).Ok? {
      var data := DecodeGiven(w.lib, a.chunk).value;
      if Remember(a.chunk, w.options, w.chunkSize, w.offset, |data|).Some? {
        RememberedForm(w.lib, a.chunk, w.options, w.chunkSize, w.offset);
      }
    }
  }

  // ---------------------------------------------------------------- encoding the spool

  /** `logical_size`: the declared or written size, rounded up to whole sectors. */
  function LogicalSize(w: Writer): Result<nat>
    requires w.options.bytesPerSector > 0
  {
    var target :- TargetSize(w);
    var sector := w.options.bytesPerSector;
    var padded := (target + sector - 1) / sector * sector;
    if padded >= U64 then Err else Ok(padded)
  }

  /** The media the writer stands for: the spool, zero-filled to the logical size, by chunks. */
  function MediaChunk(w: Writer, logical: nat, k: nat): (b: Bytes)
    ensures |b| == LogicalChunkSize(logical, w.chunkSize, k)
  {
    SpoolSlice(w.Spool(), k * w.chunkSize, LogicalChunkSize(logical, w.chunkSize, k))
  }

  ghost predicate EncodesMedia(w: Writer, logical: nat, k: nat, e: EncodedChunk) {
    Decodes(w.lib, e, w.options.Encode(), MediaChunk(w, logical, k))
  }

  lemma CompatibleIsReadAsWritten(r: Remembered, options: Options)
    requires Shaped(r) && Compatible(r.encoding, options)
    ensures EncodingOf(r.encoded, options.Encode()) == r.encoding
  {}

  /** A remembered chunk of the right size and a compatible encoding may be written as it is. */
  lemma RememberedEncodesMedia(w: Writer, logical: nat, k: nat)
    requires Coherent(w) && k in w.encoded
    requires w.encoded[k].logicalSize == LogicalChunkSize(logical, w.chunkSize, k)
            && Compatible(w.encoded[k].encoding, w.options)
    ensures EncodesMedia(w, logical, k, w.encoded[k].encoded)
  {
    hide SpoolSlice, DecodeChunk, TrailerAccepted, EncodingOf, Compatible;
    assert Coheres(w.lib, w.Spool(), w.chunkSize, k, w.encoded[k]);
    CompatibleIsReadAsWritten(w.encoded[k], w.options);
  }

  /** The reader's caps and the table entry admit the emitted chunk. */
  predicate Emittable(e: EncodedChunk, options: EncodeOptions, chunkSize: nat) {
    && SizeAccepted(|e.bytes|, chunkSize, EncodingOf(e, options)).Ok?
    && (e.pattern.Some? ==> options.ewf2 && e.compressed && e.pattern.value < U64)
  }

  lemma RememberedIsEmittable(w: Writer, k: nat)
    requires Coherent(w) && AllCapped(w) && k in w.encoded && Compatible(w.encoded[k].encoding, w.options)
    ensures Emittable(w.encoded[k].encoded, w.options.Encode(), w.chunkSize)
  {
    hide SizeAccepted, EncodingOf, DecodeChunk, SpoolSlice, TrailerAccepted;
    assert Coheres(w.lib, w.Spool(), w.chunkSize, k, w.encoded[k]);
    CompatibleIsReadAsWritten(w.encoded[k], w.options);
  }

  lemma FreshIsEmittable(w: Writer, logical: nat, k: nat)
    requires Coherent(w) && OutputIsBounded(w.lib) && CapsExist(w.chunkSize)
    ensures var e := EncodeChunk(w.lib, MediaChunk(w, logical, k), w.options.Encode(), w.chunkSize);
            e.Ok? ==> Emittable(e.value, w.options.Encode(), w.chunkSize)
  {
    hide OutputIsBounded, EncodeChunk, CapsExist, MediaChunk, SizeAccepted, EncodingOf;
    ChunkIsNoLarger(w, logical, k);
    FreshSizeIsAccepted(w.lib, MediaChunk(w, logical, k), w.options.Encode(), w.chunkSize);
  }

  lemma ChunkIsNoLarger(w: Writer, logical: nat, k: nat)
    ensures |MediaChunk(w, logical, k)| <= w.chunkSize
  {}

  lemma FreshEncodesMedia(w: Writer, logical: nat, k: nat)
    requires Coherent(w) && Inverse(w.lib)
    ensures var e := EncodeChunk(w.lib, MediaChunk(w, logical, k), w.options.Encode(), w.chunkSize);
            if e.Ok? then EncodesMedia(w, logical, k, e.value)
            else w.options.compression.Bzipped? && w.options.level.NoLevel?
  {
    hide EncodeChunk, Decodes, MediaChunk;
    EncodingRoundTrip(w.lib, MediaChunk(w, logical, k), w.options.Encode(), w.chunkSize);
  }

  /** What the caps of emitted chunks rest on: the run so far, the libraries and the chunk size. */
  ghost predicate StaysCapped(w: Writer) {
    AllCapped(w) && OutputIsBounded(w.lib) && CapsExist(w.chunkSize)
  }

  /** The writer's chunks: one for each chunk of the media, which it decodes to, within the caps. */
  ghost predicate Emits(w: Writer, logical: nat, chunks: seq<EncodedChunk>) {
    && w.chunkSize > 0 && |chunks| == ChunkCount(logical, w.chunkSize).value
    && forall k | 0 <= k < |chunks| :: EncodesMedia(w, logical, k, chunks[k])
        && Emittable(chunks[k], w.options.Encode(), w.chunkSize)
  }

  /** A remembered chunk is written as it is while its size and encoding fit; any other is encoded. */
  function EmittedChunk(w: Writer, logical: nat, k: nat): Result<EncodedChunk> {
    if k in w.encoded && w.encoded[k].logicalSize == |MediaChunk(w, logical, k)|
       && Compatible(w.encoded[k].encoding, w.options) then Ok(w.encoded[k].encoded)
    else EncodeChunk(w.lib, MediaChunk(w, logical, k), w.options.Encode(), w.chunkSize)
  }

  /** These are the chunks emitted, or encoding one of them fails. */
  ghost predicate EmitsAll(w: Writer, logical: nat, r: Result<seq<EncodedChunk>>) {
    w.chunkSize > 0
    && var count := ChunkCount(logical, w.chunkSize).value;
       match r
       case Ok(chunks) =>
         |chunks| == count && forall k | 0 <= k < count :: EmittedChunk(w, logical, k) == Ok(chunks[k])
       case Err => exists k | 0 <= k < count :: EmittedChunk(w, logical, k).Err?
  }

  /** The chunk emitted at `k`: the remembered form if it still fits, else a fresh encoding. */
  method EncodeOne(w: Writer, remembered: Option<Remembered>, logical: nat, k: nat,
                   chunk: Bytes) returns (r: Result<EncodedChunk>)
    requires Coherent(w) && Inverse(w.lib) && chunk == MediaChunk(w, logical, k)
    requires remembered == if k in w.encoded then Some(w.encoded[k]) else None
    ensures r == EmittedChunk(w, logical, k)
    ensures r.Ok? ==> EncodesMedia(w, logical, k, r.value)
    ensures r.Ok? && StaysCapped(w) ==> Emittable(r.value, w.options.Encode(), w.chunkSize)
    ensures r.Err? ==> w.options.compression.Bzipped? && w.options.level.NoLevel?
  {
    hide EncodesMedia, Coherent, MediaChunk, EncodeChunk, Emittable, AllCapped;
    if StaysCapped(w) {
      FreshIsEmittable(w, logical, k);
      if k in w.encoded && Compatible(w.encoded[k].encoding, w.options) { RememberedIsEmittable(w, k); }
    }
    if remembered.Some? && remembered.value.logicalSize == |chunk| && Compatible(remembered.value.encoding, w.options) {
      RememberedEncodesMedia(w, logical, k);
      return Ok(remembered.value.encoded);
    }
    FreshEncodesMedia(w, logical, k);
    r := EncodeChunk(w.lib, chunk, w.options.Encode(), w.chunkSize);
  }

  /** `encode_raw_spool`: one encoded chunk per chunk of the media, each decoding to it. */
  method EncodeRawSpool(w: Writer, logical: nat) returns (r: Result<seq<EncodedChunk>>)
    requires Coherent(w) && Inverse(w.lib)
    ensures r.Ok? ==> |r.value| == ChunkCount(logical, w.chunkSize).value
    ensures r.Ok? ==> forall k | 0 <= k < |r.value| :: EncodesMedia(w, logical, k, r.value[k])
    ensures r.Ok? && StaysCapped(w) ==> Emits(w, logical, r.value)
    ensures r.Err? ==> w.options.compression.Bzipped? && w.options.level.NoLevel?
    ensures EmitsAll(w, logical, r)
  {
    hide EncodesMedia, MediaChunk, Emittable, StaysCapped, EmittedChunk;
    var chunks, offset, remembered := [], 0, w.encoded;
    while offset < logical
      invariant offset == Min(|chunks| * w.chunkSize, logical)
      invariant offset < logical ==> offset == |chunks| * w.chunkSize
      invariant |chunks| <= ChunkCount(logical, w.chunkSize).value
      invariant forall k | 0 <= k < |chunks| :: EncodesMedia(w, logical, k, chunks[k])
      invariant StaysCapped(w) ==> forall k | 0 <= k < |chunks| :: Emittable(chunks[k], w.options.Encode(), w.chunkSize)
      invariant forall k | 0 <= k < |chunks| :: EmittedChunk(w, logical, k) == Ok(chunks[k])
      invariant forall k | k >= |chunks| :: k in remembered <==> k in w.encoded
      invariant forall k <- remembered :: k in w.encoded && remembered[k] == w.encoded[k]
      decreases logical - offset
    {
      var k := |chunks|;
      ChunkStartsBefore(logical, w.chunkSize, k);
      var take := Min(logical - offset, w.chunkSize);
      var chunk := SpoolSlice(w.Spool(), offset, take);
      MediaChunkAt(w, logical, k);
      var index := offset / w.chunkSize;
      var found := if index in remembered then Some(remembered[index]) else None;
      remembered := remembered - {index};
      var one := EncodeOne(w, found, logical, k, chunk);
      if one.Err? { return Err; }
      var encoded := one.value;
      chunks := chunks + [encoded];
      offset := offset + take;
    }
    AllChunksAreEncoded(logical, w.chunkSize, |chunks|);
    return Ok(chunks);
  }

  lemma MediaChunkAt(w: Writer, logical: nat, k: nat)
    requires w.chunkSize > 0 && k * w.chunkSize < logical
    ensures MediaChunk(w, logical, k)
            == SpoolSlice(w.Spool(), k * w.chunkSize, Min(logical - k * w.chunkSize, w.chunkSize))
  {}

  lemma ChunkStartsBefore(logical: nat, chunkSize: nat, k: nat)
    requires chunkSize > 0 && k * chunkSize < logical
    ensures k < ChunkCount(logical, chunkSize).value && k * chunkSize / chunkSize == k
    ensures (k + 1) * chunkSize == k * chunkSize + chunkSize
  {
    PositionInChunk(chunkSize, k, 0);
    QuotientIsMonotone(chunkSize, k * chunkSize, logical - 1);
  }

  lemma AllChunksAreEncoded(logical: nat, chunkSize: nat, n: nat)
    requires chunkSize > 0 && n <= ChunkCount(logical, chunkSize).value && n * chunkSize >= logical
    ensures n == ChunkCount(logical, chunkSize).value
  {
    if n < ChunkCount(logical, chunkSize).value { LastChunkStarts(logical, chunkSize, n); }
  }

  // ---------------------------------------------------------------- the media as a whole

  /** An image whose chunks are the writer's media chunks. */
  function MediaOf(w: Writer, logical: nat): Source {
    Source(logical, w.chunkSize, id => Ok(MediaChunk(w, logical, id)))
  }

  /** The chunks, concatenated, are the zero-filled, sector-padded spool. */
  lemma ChunksAreTheSpool(w: Writer, logical: nat)
    requires w.chunkSize > 0
    ensures Sized(MediaOf(w, logical)) && AllDecode(MediaOf(w, logical))
    ensures Media(MediaOf(w, logical)) == SpoolSlice(w.Spool(), 0, logical)
  {
    var s := MediaOf(w, logical);
    ReadsAreSlicesOfTheMedia(s, 0, logical);
    forall p | 0 <= p < logical ensures MediaByte(s, p) == SpoolByte(w.Spool(), p) {
      MediaByteIsSpooled(w, logical, p);
    }
    hide MediaByte, SpoolByte, Media;
    assert MediaSlice(s, 0, logical) == SpoolSlice(w.Spool(), 0, logical);
    assert Media(s)[0..logical] == Media(s);
  }

  lemma MediaByteIsSpooled(w: Writer, logical: nat, p: nat)
    requires w.chunkSize > 0 && p < logical
    ensures MediaByte(MediaOf(w, logical), p) == SpoolByte(w.Spool(), p)
  {
    var s := MediaOf(w, logical);
    var k, within := ChunkOf(s, p), Within(s, p);
    ChunkReaches(s, p);
    assert p == k * w.chunkSize + within;
    assert MediaChunk(w, logical, k)[within] == SpoolByte(w.Spool(), k * w.chunkSize + within);
  }

  /** An image that gives the writer's media chunks reads as the writer's spool. */
  lemma SameMedia(image: Source, w: Writer, logical: nat, offset: nat, n: nat)
    requires w.chunkSize > 0 && image.chunkSize == w.chunkSize && image.logicalSize == logical && offset + n <= logical
    requires forall id | 0 <= id < ChunkCount(logical, w.chunkSize).value ::
            image.read(id) == Ok(MediaChunk(w, logical, id))
    ensures Readable(image, offset, n)
    ensures MediaSlice(image, offset, n) == SpoolSlice(w.Spool(), 0, logical)[offset..offset + n]
  {
    forall p | offset <= p < offset + n ensures Available(image, p) && MediaByte(image, p) == SpoolByte(w.Spool(), p) {
      PositionsAreInChunks(image, p);
      MediaByteIsSpooled(w, logical, p);
      var source := MediaOf(w, logical);
      assert ChunkOf(image, p) == ChunkOf(source, p) && Within(image, p) == Within(source, p);
    }
    hide MediaByte, SpoolByte;
    var slice, whole := MediaSlice(image, offset, n), SpoolSlice(w.Spool(), 0, logical);
    forall i | 0 <= i < n ensures slice[i] == whole[offset..offset + n][i] {
      assert offset <= offset + i < offset + n;
      assert whole[offset + i] == SpoolByte(w.Spool(), 0 + (offset + i));
    }
  }

  // ---------------------------------------------------------------- copying geometry

  /** Whether an entry remembered for chunk `i` can be relied on after the chunk size changes
      depends on these numbers only. */
  predicate SurvivesResize(i: nat, logicalSize: nat, before: nat, after: nat) {
    after == before || logicalSize == 0 || (i == 0 && logicalSize <= after)
  }

  /** A raw entry of ones at chunk `i`, over a spool that is zero elsewhere. */
  function OnesAt(start: nat, n: nat): Bytes { Zeros(start) + Ones(n) }

  function Ones(n: nat): Bytes { seq<Byte>(n, _ => 1) }

  function RawEntry(data: Bytes): Remembered {
    Remembered(|data|, RawData, EncodedChunk(data, false, false, None))
  }

  lemma OnesCohere(lib: Library, chunkSize: nat, i: nat, n: nat)
    requires n <= chunkSize
    ensures Coheres(lib, OnesAt(i * chunkSize, n), chunkSize, i, RawEntry(Ones(n)))
  {
    var raw := OnesAt(i * chunkSize, n);
    forall k | 0 <= k < n ensures SpoolSlice(raw, i * chunkSize, n)[k] == Ones(n)[k] {
      assert SpoolByte(raw, i * chunkSize + k) == raw[i * chunkSize + k];
    }
    assert SpoolSlice(raw, i * chunkSize, n) == Ones(n);
    assert Ones(n)[..n] == Ones(n);
  }

  lemma DistinctMultiples(i: nat, a: nat, b: nat)
    requires i > 0 && a != b
    ensures i * a != i * b
  {
    if a < b { ProductIsMonotone(i, a + 1, b); assert i * (a + 1) == i * a + i; }
    else { ProductIsMonotone(i, b + 1, a); assert i * (b + 1) == i * b + i; }
  }

  lemma PaddedOnesDoNotCohere(lib: Library, before: nat, after: nat, i: nat, n: nat, zeros: nat)
    requires n <= before && !SurvivesResize(i, n, before, after)
    ensures !Coheres(lib, OnesAt(i * before, n) + Zeros(zeros), after, i, RawEntry(Ones(n)))
  {
    if i > 0 {
      var raw, start, moved := OnesAt(i * before, n) + Zeros(zeros), i * before, i * after;
      DistinctMultiples(i, before, after);
      var outside := if moved < start then moved else moved + n - 1;
      assert SpoolByte(raw, outside) == 0;
      assert SpoolSlice(raw, moved, n)[outside - moved] == 0;
      assert Ones(n)[..n][outside - moved] == 1;
    }
  }

  lemma SurvivorsCohere(lib: Library, raw: Bytes, before: nat, after: nat, i: nat, r: Remembered)
    requires Coheres(lib, raw, before, i, r) && SurvivesResize(i, r.logicalSize, before, after)
    ensures Coheres(lib, raw, after, i, r)
  {
    hide DecodeChunk, Shaped, TrailerAccepted;
    if r.logicalSize == 0 {
      assert SpoolSlice(raw, i * before, 0) == SpoolSlice(raw, i * after, 0);
    }
  }

  /** Copying media values keeps an entry right for every content it may have exactly when the
      chunk size stays, the entry is empty, or it is a first chunk that still fits. */
  lemma EntrySurvivesCopyExactlyWhen(lib: Library, before: nat, after: nat, i: nat, n: nat)
    requires n <= before
    ensures SurvivesResize(i, n, before, after)
            <==> forall raw, r: Remembered | r.logicalSize == n && Coheres(lib, raw, before, i, r) ::
                   Coheres(lib, raw, after, i, r)
  {
    hide Coheres, SurvivesResize;
    if SurvivesResize(i, n, before, after) {
      forall raw, r: Remembered | r.logicalSize == n && Coheres(lib, raw, before, i, r)
        ensures Coheres(lib, raw, after, i, r)
      {
        SurvivorsCohere(lib, raw, before, after, i, r);
      }
    } else {
      OnesCohere(lib, before, i, n);
      PaddedOnesDoNotCohere(lib, before, after, i, n, 0);
      assert OnesAt(i * before, n) + Zeros(0) == OnesAt(i * before, n);
    }
  }

  /** Copying media values keeps everything remembered right when every entry survives. */
  lemma CopyKeepsCoherent(w: Writer, options: Options)
    requires Coherent(w)
    requires forall i <- w.encoded :: SurvivesResize(i, w.encoded[i].logicalSize, w.chunkSize, options.ChunkSize())
    ensures Coherent(CopyMediaValues(w, options).0)
  {
    hide Coheres;
    if options.Accepted() {
      GeometryIsPositive(options);
      forall i <- w.encoded ensures Coheres(w.lib, w.Spool(), options.ChunkSize(), i, w.encoded[i]) {
        SurvivorsCohere(w.lib, w.Spool(), w.chunkSize, options.ChunkSize(), i, w.encoded[i]);
      }
    }
  }

  /** The chunks that are remembered, with their sizes. */
  predicate HasShape(encoded: map<nat, Remembered>, shape: map<nat, nat>) {
    encoded.Keys == shape.Keys && forall i <- shape :: encoded[i].logicalSize == shape[i]
  }

  /** A writer whose spool has ones where chunk `i` is and zeros elsewhere, all of it remembered raw. */
  function Witness(lib: Library, options: Options, shape: map<nat, nat>, i: nat, zeros: nat): Writer
    requires i in shape
  {
    var size := options.ChunkSize();
    var file := OnesAt(i * size, shape[i]) + Zeros(zeros);
    Writer(lib, options, size, file, |file|, map k | k in shape :: RawEntry(SpoolSlice(file, k * size, shape[k])), 0, 0)
  }

  function EntryEnd(i: nat, n: nat, chunkSize: nat): nat { i * chunkSize + n }

  lemma {:induction false} SomeBound(shape: map<nat, nat>, chunkSize: nat) returns (bound: nat)
    ensures forall i <- shape :: EntryEnd(i, shape[i], chunkSize) <= bound
    decreases |shape|
  {
    hide EntryEnd;
    bound := 0;
    if shape != map[] {
      var i :| i in shape;
      var rest := shape - {i};
      assert rest.Keys == shape.Keys - {i};
      var before := SomeBound(rest, chunkSize);
      bound := before + EntryEnd(i, shape[i], chunkSize);
      forall k <- shape ensures EntryEnd(k, shape[k], chunkSize) <= bound {
        assert k == i || (k in rest && rest[k] == shape[k]);
      }
    }
  }

  lemma SliceCoheres(lib: Library, file: Bytes, chunkSize: nat, k: nat, n: nat)
    requires n <= chunkSize && EntryEnd(k, n, chunkSize) <= |file|
    ensures Coheres(lib, file, chunkSize, k, RawEntry(SpoolSlice(file, k * chunkSize, n)))
  {
    var slice := SpoolSlice(file, k * chunkSize, n);
    assert slice[..n] == slice;
    hide SpoolSlice;
  }

  lemma OnesAreThere(start: nat, n: nat, zeros: nat)
    ensures SpoolSlice(OnesAt(start, n) + Zeros(zeros), start, n) == Ones(n)
  {
    var file := OnesAt(start, n) + Zeros(zeros);
    forall k | 0 <= k < n ensures SpoolSlice(file, start, n)[k] == Ones(n)[k] {
      assert SpoolByte(file, start + k) == file[start + k];
    }
  }

  lemma WitnessIsCoherent(lib: Library, options: Options, shape: map<nat, nat>, i: nat, zeros: nat)
    requires i in shape && CanHold(options, shape)
    requires forall k <- shape :: EntryEnd(k, shape[k], options.ChunkSize()) <= zeros
    ensures var w := Witness(lib, options, shape, i, zeros);
            Coherent(w) && HasShape(w.encoded, shape) && w.encoded[i] == RawEntry(Ones(shape[i])) && w.Spool() == w.file
  {
    hide Coheres, OnesAt, SpoolSlice, EntryEnd, Ones;
    var w := Witness(lib, options, shape, i, zeros);
    assert w.file[..|w.file|] == w.file;
    forall k <- w.encoded ensures Coheres(lib, w.file, w.chunkSize, k, w.encoded[k]) {
      SliceCoheres(lib, w.file, w.chunkSize, k, shape[k]);
    }
    OnesAreThere(i * w.chunkSize, shape[i], zeros);
  }

  /** Entries of these sizes can be remembered by a writer with these options. */
  predicate CanHold(options: Options, shape: map<nat, nat>) {
    options.Accepted() && options.ChunkSize() > 0 && forall i <- shape :: shape[i] <= options.ChunkSize()
  }

  lemma WitnessBreaks(lib: Library, options: Options, copied: Options, shape: map<nat, nat>, i: nat, zeros: nat)
    requires i in shape && CanHold(options, shape) && copied.Accepted()
    requires forall k <- shape :: EntryEnd(k, shape[k], options.ChunkSize()) <= zeros
    requires !SurvivesResize(i, shape[i], options.ChunkSize(), copied.ChunkSize())
    ensures var w := Witness(lib, options, shape, i, zeros);
            CopyMediaValues(w, copied).1 && !Coherent(CopyMediaValues(w, copied).0)
  {
    var w := Witness(lib, options, shape, i, zeros);
    WitnessIsCoherent(lib, options, shape, i, zeros);
    PaddedOnesDoNotCohere(lib, options.ChunkSize(), copied.ChunkSize(), i, shape[i], zeros);
    hide Coheres, SurvivesResize;
    assert CopyMediaValues(w, copied).0.Spool() == w.file;
  }

  /** Whatever the contents of the spool and the entries, copying media values leaves every
      writer that remembers these chunks right, exactly when each of them survives. */
  lemma CopyKeepsCoherentExactlyWhen(lib: Library, options: Options, copied: Options, shape: map<nat, nat>)
    requires CanHold(options, shape) && copied.Accepted()
    ensures (forall i <- shape :: SurvivesResize(i, shape[i], options.ChunkSize(), copied.ChunkSize()))
            <==> forall w: Writer | w.lib == lib && w.options == options && Coherent(w) && HasShape(w.encoded, shape) ::
                   Coherent(CopyMediaValues(w, copied).0)
  {
    hide Coherent, SurvivesResize, CopyMediaValues;
    if forall i <- shape :: SurvivesResize(i, shape[i], options.ChunkSize(), copied.ChunkSize()) {
      forall w: Writer | w.lib == lib && w.options == options && Coherent(w) && HasShape(w.encoded, shape)
        ensures Coherent(CopyMediaValues(w, copied).0)
      {
        CoherentMeansChunks(w);
        CopyKeepsCoherent(w, copied);
      }
    } else {
      var i :| i in shape && !SurvivesResize(i, shape[i], options.ChunkSize(), copied.ChunkSize());
      var zeros := SomeBound(shape, options.ChunkSize());
      WitnessIsCoherent(lib, options, shape, i, zeros);
      WitnessBreaks(lib, options, copied, shape, i, zeros);
    }
  }

  // A chunk of 512 ones is written already encoded at offset 1024, as chunk 1 of 1024 bytes. Copying
  // a geometry of 512-byte chunks makes it chunk 1 of 512 bytes, where the media is zero.

  const SOME_OPTIONS := Options(Ewf1Physical, 2, 512, None, Uncompressed, DefaultLevel, false)
  const COPIED_OPTIONS := Options(Ewf1Physical, 1, 512, Some(2048), Uncompressed, DefaultLevel, false)

  function BeforeCopy(lib: Library): Writer {
    var start := Writer(lib, SOME_OPTIONS, 1024, [], 0, map[], 0, 0);
    Step(Step(start, DoSeek(Start(1024))), DoWriteEncoded(Given(RawData, 512, 512, false, Ones(512)), Complete))
  }

  lemma BeforeCopyIs(lib: Library)
    ensures BeforeCopy(lib) == Writer(lib, SOME_OPTIONS, 1024, OnesAt(1024, 512), 1536, map[1 := RawEntry(Ones(512))],
                                      1536, 1536)
  {
    assert Ones(512)[..512] == Ones(512);
    assert WriteSpool([], 1024, Ones(512)) == OnesAt(1024, 512);
    assert Forget(map[], 1024, 1024, 1536) == map[];
  }

  /** So the writer then emits the remembered chunk for bytes it does not decode to. */
  lemma CopiedGeometryEmitsWrongBytes(lib: Library)
    ensures var w := CopyMediaValues(BeforeCopy(lib), COPIED_OPTIONS).0;
            && Coherent(BeforeCopy(lib))
            && w.options == COPIED_OPTIONS && LogicalSize(w) == Ok(2048) && 1 in w.encoded
            && w.encoded[1].logicalSize == |MediaChunk(w, 2048, 1)| && Compatible(w.encoded[1].encoding, w.options)
            && !EncodesMedia(w, 2048, 1, w.encoded[1].encoded)
  {
    BeforeCopyIs(lib);
    OnesCohere(lib, 1024, 1, 512);
    var w := CopyMediaValues(BeforeCopy(lib), COPIED_OPTIONS).0;
    assert w == Writer(lib, COPIED_OPTIONS, 512, OnesAt(1024, 512), 1536, map[1 := RawEntry(Ones(512))], 1536, 1536);
    assert w.Spool() == BeforeCopy(lib).Spool() == OnesAt(1024, 512);
    assert MediaChunk(w, 2048, 1)[0] == 0;
    assert Ones(512)[..512][0] == 1;
  }

  lemma ForgetIsDifference(encoded: map<nat, Remembered>, chunkSize: nat, start: nat, end: nat, keys: set<nat>)
    requires chunkSize > 0 && start < end
    requires forall i :: i in keys <==> i in encoded && start / chunkSize <= i <= (end - 1) / chunkSize
    ensures encoded - keys == Forget(encoded, chunkSize, start, end)
  {}

  // ---------------------------------------------------------------- the writer object

  class EwfWriter {
    const lib: Library
    var options: Options
    var chunkSize: nat
    var spoolFile: Bytes
    var spoolLength: nat
    var encodedChunks: map<nat, Remembered>
    var currentOffset: nat
    var logicalInputSize: nat

    function View(): Writer
      reads this
    {
      Writer(lib, options, chunkSize, spoolFile, spoolLength, encodedChunks, currentOffset, logicalInputSize)
    }

    constructor (lib: Library, options: Options)
      requires options.Accepted()
      ensures View() == Writer(lib, options, options.ChunkSize(), [], 0, map[], 0, 0) && Coherent(View())
    {
      this.lib, this.options, chunkSize, spoolFile, spoolLength := lib, options, options.ChunkSize(), [], 0;
      encodedChunks, currentOffset, logicalInputSize := map[], 0, 0;
      new;
      GeometryIsPositive(options);
    }

    /** Removes the remembered chunks a write touches, one key at a time. */
    method ForgetEncodedChunksInRange(start: nat, end: nat)
      requires chunkSize > 0
      modifies this`encodedChunks
      ensures encodedChunks == Forget(old(encodedChunks), chunkSize, start, end)
    {
      if start >= end { return; }
      var first, last := start / chunkSize, (end - 1) / chunkSize;
      var keys := set i | i in encodedChunks && first <= i <= last;
      ghost var before, all := encodedChunks, keys;
      while keys != {}
        invariant keys <= all && encodedChunks == before - (all - keys)
        decreases |keys|
      {
        var i :| i in keys;
        encodedChunks := encodedChunks - {i};
        keys := keys - {i};
      }
      ForgetIsDifference(before, chunkSize, start, end, all);
    }

    /** `RawSpool::write_at`: a failure may come after some bytes are in the file. */
    method WriteSpoolAt(data: Bytes, io: Io) returns (ok: bool)
      modifies this`spoolFile, this`spoolLength
      ensures View() == Spooled(old(View()), data, io) && (ok <==> io.Complete?)
    {
      if io.Torn? {
        spoolFile := WriteSpool(spoolFile, currentOffset, data[..Min(io.bytes, |data|)]);
        return false;
      }
      spoolFile := WriteSpool(spoolFile, currentOffset, data);
      if data != [] && spoolLength < currentOffset + |data| { spoolLength := currentOffset + |data|; }
      return true;
    }

    /** Writes at the current position. Chunks it touches are forgotten before the spool is
        written, so that an I/O error leaves no entry for bytes that are half replaced. */
    method WriteToCurrent(data: Bytes, io: Io) returns (ok: bool)
      requires Coherent(View())
      modifies this
      ensures (View(), ok) == Written(old(View()), data, io) && Coherent(View())
    {
      WriteKeepsCoherent(View(), data, io);
      hide Coherent, Forget, WriteSpool;
      CoherentMeansChunks(View());
      var end := currentOffset + |data|;
      if end >= U64 || (options.mediaSize.Some? && end > options.mediaSize.value) { return false; }
      ForgetEncodedChunksInRange(currentOffset, end);
      ok := WriteSpoolAt(data, io);
      if !ok { return false; }
      currentOffset := end;
      if logicalInputSize < end { logicalInputSize := end; }
    }

    /** Decodes, writes, and remembers the encoded form if it can stand for the chunk. */
    method WriteEncodedDataChunk(chunk: EncodedData, io: Io) returns (ok: bool)
      requires Coherent(View())
      modifies this
      ensures (View(), ok) == WriteEncoded(old(View()), chunk, io) && Coherent(View())
    {
      WriteEncodedKeepsCoherent(View(), chunk, io);
      hide Coherent, DecodeGiven, Remember, Written;
      CoherentMeansChunks(View());
      var data := DecodeGiven(lib, chunk);
      if data.Err? { return false; }
      var offset := currentOffset;
      ghost var before := View();
      WriteKeepsGeometry(before, data.value, io);
      ok := WriteToCurrent(data.value, io);
      if !ok { return false; }
      var remembered := Remember(chunk, options, chunkSize, offset, |data.value|);
      if remembered.Some? {
        encodedChunks := encodedChunks[offset / chunkSize := remembered.value];
      }
    }

    method SeekPosition(seek: SeekFrom) returns (ok: bool)
      modifies this`currentOffset
      ensures (View(), ok) == Seek(old(View()), seek)
    {
      if options.mediaSize.Some? && logicalInputSize > options.mediaSize.value { return false; }
      var size := if options.mediaSize.Some? then options.mediaSize.value else logicalInputSize;
      var next := match seek
                  case Start(offset) => offset
                  case Current(delta) => currentOffset + delta
                  case End(delta) => size + delta;
      ok := 0 <= next < U64;
      if ok { currentOffset := next; }
    }

    method SetSectorsPerChunk(sectors: nat) returns (ok: bool)
      requires Coherent(View())
      modifies this
      ensures (View(), ok) == SetGeometry(old(View()), old(options).(sectorsPerChunk := sectors)) && Coherent(View())
    {
      SetGeometryKeepsCoherent(View(), options.(sectorsPerChunk := sectors));
      if logicalInputSize != 0 { return false; }
      var changed := options.(sectorsPerChunk := sectors);
      if !changed.Accepted() { return false; }
      options, chunkSize, encodedChunks := changed, changed.ChunkSize(), map[];
      return true;
    }

    /** Unlike the setters, this neither refuses after data is written nor forgets anything. */
    method CopyMediaValuesFromInfo(copied: Options) returns (ok: bool)
      modifies this
      ensures (View(), ok) == CopyMediaValues(old(View()), copied)
    {
      if !copied.Accepted() || (copied.mediaSize.Some? && logicalInputSize > copied.mediaSize.value) { return false; }
      options, chunkSize := copied, copied.ChunkSize();
      return true;
    }

    /** `prepare_write`: whatever was remembered, the chunks decode to the media. */
    method PrepareWrite() returns (r: Result<seq<EncodedChunk>>)
      requires Coherent(View()) && Inverse(lib)
      ensures r.Ok? ==>
                && LogicalSize(View()).Ok?
                && |r.value| == ChunkCount(LogicalSize(View()).value, chunkSize).value
                && (forall k | 0 <= k < |r.value| :: EncodesMedia(View(), LogicalSize(View()).value, k, r.value[k]))
                && (StaysCapped(View()) ==> Emits(View(), LogicalSize(View()).value, r.value))
      ensures r.Err? ==> LogicalSize(View()).Err? || (options.compression.Bzipped? && options.level.NoLevel?)
      ensures if LogicalSize(View()).Ok? then EmitsAll(View(), LogicalSize(View()).value, r) else r.Err?
    {
      hide EncodesMedia, LogicalSize, Emits, StaysCapped, EmitsAll;
      var logical :- LogicalSize(View());
      r := EncodeRawSpool(View(), logical);
    }
  }

  lemma CoherentMeansChunks(w: Writer)
    requires Coherent(w)
    ensures w.chunkSize == w.options.ChunkSize() > 0
  {}

  lemma WriteKeepsGeometry(w: Writer, data: Bytes, io: Io)
    requires w.chunkSize > 0
    ensures var t := Written(w, data, io).0; t.options == w.options && t.chunkSize == w.chunkSize && t.lib == w.lib
  {}
}
