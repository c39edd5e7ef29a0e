/** Encoding chunks (src/writer.rs, `encode_chunk`) and decoding them (src/decode.rs). The
    compression libraries are a parameter with an inverse law. */
module ChunkCodec {
  import opened Basics

  datatype Method = Zlib | Zstd | Bzip2

  datatype Encoding = RawData | ZlibData | ZstdData | Bzip2Data | PatternFill(pattern: nat)

  datatype Level = DefaultLevel | NoLevel | FastLevel | BestLevel

  datatype Library = Library(compress: (Method, Level, Bytes) -> Bytes, expand: (Method, Bytes) -> Result<Bytes>)

  ghost predicate Inverse(lib: Library) {
    forall m, level, b :: lib.expand(m, lib.compress(m, level, b)) == Ok(b)
  }

  // ---------------------------------------------------------------- size caps

  function RawCap(chunkSize: nat): Result<nat> {
    if chunkSize + 4 >= U64 then Err else Ok(chunkSize + 4)
  }

  function CompressBound(n: nat): nat { n + n / 4096 + n / 16384 + n / 33554432 + 13 }

  function ZlibCap(chunkSize: nat): Result<nat> {
    var compressBound := CompressBound(chunkSize);
    var storedBound := chunkSize + (chunkSize + 511) / 512 * 5 + 6;
    var cap := if compressBound > storedBound then compressBound else storedBound;
    if cap >= U64 then Err else Ok(cap)
  }

  function DoubleCap(chunkSize: nat): Result<nat> {
    if 2 * chunkSize >= U64 then Err else Ok(2 * chunkSize)
  }

  function Bzip2Cap(chunkSize: nat): Result<nat> {
    var cap := chunkSize + chunkSize / 100 + 4096;
    if cap >= U64 then Err else Ok(cap)
  }

  /** `validate_encoded_size` */
  function SizeAccepted(size: nat, chunkSize: nat, encoding: Encoding): Result<()> {
    if encoding.PatternFill? then Ok(())
    else if size == 0 then Err
    else
      var cap :- (match encoding
                  case RawData => RawCap(chunkSize)
                  case ZlibData => ZlibCap(chunkSize)
                  case Bzip2Data => Bzip2Cap(chunkSize)
                  case _ => DoubleCap(chunkSize));
      if size > cap then Err else Ok(())
  }

  // ---------------------------------------------------------------- decoding

  const ZSTD_MAGIC: Bytes := [0x28, 0xb5, 0x2f, 0xfd]

  function PatternBytes(pattern: nat, size: nat): (b: Bytes)
    ensures |b| == size
  {
    seq(size, i requires 0 <= i < size => Le(pattern, 8)[i % 8])
  }

  /** A whole number of eight-byte copies of the pattern, then its first bytes. */
  method FillPattern(pattern: nat, size: nat) returns (out: array<Byte>)
    ensures fresh(out) && out[..] == PatternBytes(pattern, size)
  {
    var bytes := Le(pattern, 8);
    out := new Byte[size](_ => 0);
    var start := 0;
    while start + 8 <= size
      invariant start <= size && start % 8 == 0
      invariant forall i | 0 <= i < start :: out[i] == bytes[i % 8]
      decreases size - start
    {
      CopyPattern(out, start, bytes, 8);
      start := start + 8;
    }
    CopyPattern(out, start, bytes, size - start);
  }

  method CopyPattern(out: array<Byte>, start: nat, bytes: Bytes, n: nat)
    requires start % 8 == 0 && n <= 8 && start + n <= out.Length && |bytes| == 8
    requires forall i | 0 <= i < start :: out[i] == bytes[i % 8]
    modifies out
    ensures forall i | 0 <= i < start + n :: out[i] == bytes[i % 8]
  {
    for j := 0 to n
      invariant forall i | 0 <= i < start + j :: out[i] == bytes[i % 8]
    {
      out[start + j] := bytes[j];
    }
  }

  /** What a decompressor gave, cut to the logical size when its length is acceptable. */
  function Bounded(expanded: Result<Bytes>, logical: nat, maximum: nat): (r: Result<Bytes>) {
    var b :- expanded;
    if |b| < logical || |b| > maximum then Err else Ok(b[..logical])
  }

  function DecodeChunk(lib: Library, encoded: Bytes, encoding: Encoding, logical: nat, maximum: nat): (r: Result<Bytes>)
    ensures r.Ok? ==> |r.value| == logical
  {
    if maximum < logical then Err
    else
      match encoding
      case RawData => if |encoded| < logical then Err else Ok(encoded[..logical])
      case ZlibData => Bounded(lib.expand(Zlib, encoded), logical, maximum)
      case Bzip2Data => Bounded(lib.expand(Bzip2, encoded), logical, maximum)
      case ZstdData =>
        if encoded == [0] then Ok(Zeros(logical))
        else if |encoded| == 1 then Err
        else Bounded(lib.expand(Zstd, ZSTD_MAGIC + encoded), logical, maximum)
      case PatternFill(pattern) => Ok(PatternBytes(pattern, logical))
  }

  /** `validate_raw_chunk_checksum`: four bytes after the data hold their Adler-32. */
  predicate TrailerAccepted(encoded: Bytes, logical: nat) {
    |encoded| >= logical + 4 && FromLe(encoded[logical..logical + 4]) == Adler32(encoded[..logical])
  }

  // ---------------------------------------------------------------- encoding

  datatype Compression = Uncompressed | Deflated | Bzipped

  datatype EncodeOptions = EncodeOptions(compression: Compression, level: Level, emptyBlock: bool, ewf2: bool)
  {
    /** Empty blocks are compressed even when the level says not to. */
    function EmptyLevel(): Level { if level.NoLevel? then DefaultLevel else level }
  }

  datatype EncodedChunk = EncodedChunk(bytes: Bytes, compressed: bool, hasChecksum: bool, pattern: Option<nat>)

  /** `repeated_ewf2_pattern` */
  function RepeatedPattern(chunk: Bytes): (p: Option<nat>)
    ensures p.Some? ==> p.value < U64
  {
    if chunk == [] then None
    else
      var seed := chunk[..if |chunk| < 8 then |chunk| else 8];
      var pattern := seed + Zeros(8 - |seed|);
      FromLe8IsU64(pattern);
      if forall i | 0 <= i < |chunk| :: chunk[i] == pattern[i % 8] then Some(FromLe(pattern)) else None
  }

  function EncodeRaw(chunk: Bytes): EncodedChunk {
    EncodedChunk(chunk + Le(Adler32(chunk), 4), false, true, None)
  }

  /** `encode_chunk` */
  function EncodeChunk(lib: Library, chunk: Bytes, options: EncodeOptions, chunkSize: nat): Result<EncodedChunk> {
    var pattern := if options.ewf2 then RepeatedPattern(chunk) else None;
    if pattern.Some? then Ok(EncodedChunk([], true, false, pattern))
    else if !options.ewf2 && options.emptyBlock && chunk == Zeros(chunkSize) then
      Ok(EncodedChunk(lib.compress(Zlib, options.EmptyLevel(), chunk), true, false, None))
    else
      match options.compression
      case Uncompressed => Ok(EncodeRaw(chunk))
      case Deflated =>
        var bytes := lib.compress(Zlib, options.level, chunk);
        Ok(if |bytes| >= |chunk| then EncodeRaw(chunk) else EncodedChunk(bytes, true, false, None))
      case Bzipped =>
        if options.level.NoLevel? then Err
        else Ok(EncodedChunk(lib.compress(Bzip2, options.level, chunk), true, false, None))
  }

  /** How a reader of the image will take the chunk: an EWF1 image, and an EWF2 image not
      written with bzip2, names zlib as its compression. */
  function EncodingOf(e: EncodedChunk, options: EncodeOptions): Encoding {
    if e.pattern.Some? then PatternFill(e.pattern.value)
    else if !e.compressed then RawData
    else if options.ewf2 && options.compression.Bzipped? then Bzip2Data
    else ZlibData
  }

  /** Reading the chunk back gives `data`; a checksum it claims to have is right. */
  ghost predicate Decodes(lib: Library, e: EncodedChunk, options: EncodeOptions, data: Bytes) {
    && DecodeChunk(lib, e.bytes, EncodingOf(e, options), |data|, |data|) == Ok(data)
    && (e.hasChecksum ==> TrailerAccepted(e.bytes, |data|))
  }

  // ---------------------------------------------------------------- round trips

  lemma {:induction false} FromLeBound(b: Bytes)
    ensures FromLe(b) < Pow256(|b|)
  {
    if b != [] { FromLeBound(b[1..]); }
  }

  lemma FromLe8IsU64(b: Bytes)
    requires |b| == 8
    ensures FromLe(b) < U64
  {
    FromLeBound(b);
    Pow256Of8();
  }

  lemma Pow256Of8()
    ensures Pow256(8) == U64
  {
    assert Pow256(2) == 0x1_0000;
    assert Pow256(4) == 0x1_0000_0000;
    assert Pow256(6) == 0x1_0000_0000_0000;
  }

  lemma {:induction false} LeOfFromLe(b: Bytes)
    ensures Le(FromLe(b), |b|) == b
  {
    if b != [] {
      LeOfFromLe(b[1..]);
      LowByte(b[0], FromLe(b[1..]));
    }
  }

  lemma LowByte(low: Byte, high: nat)
    ensures (low + 256 * high) % 256 == low && (low + 256 * high) / 256 == high
  {}

  /** A chunk is a repeated pattern exactly when filling with some pattern gives it. */
  lemma PatternRoundTrip(chunk: Bytes)
    ensures RepeatedPattern(chunk).Some? ==> PatternBytes(RepeatedPattern(chunk).value, |chunk|) == chunk
    ensures RepeatedPattern(chunk).Some?
            <==> chunk != [] && exists p: nat | p < U64 :: PatternBytes(p, |chunk|) == chunk
  {
    if chunk != [] {
      var seed := chunk[..if |chunk| < 8 then |chunk| else 8];
      var pattern := seed + Zeros(8 - |seed|);
      LeOfFromLe(pattern);
      FromLe8IsU64(pattern);
      if RepeatedPattern(chunk).Some? {
        assert PatternBytes(FromLe(pattern), |chunk|) == chunk;
      }
      forall p: nat | p < U64 && PatternBytes(p, |chunk|) == chunk ensures RepeatedPattern(chunk).Some? {
        PatternIsSeed(chunk, p);
      }
    }
  }

  lemma PatternIsSeed(chunk: Bytes, p: nat)
    requires chunk != [] && PatternBytes(p, |chunk|) == chunk
    ensures RepeatedPattern(chunk).Some?
  {
    var seed := chunk[..if |chunk| < 8 then |chunk| else 8];
    var pattern := seed + Zeros(8 - |seed|);
    forall i | 0 <= i < |chunk| ensures chunk[i] == pattern[i % 8] {
      assert PatternBytes(p, |chunk|)[i] == Le(p, 8)[i % 8];
      assert PatternBytes(p, |chunk|)[i % 8] == Le(p, 8)[i % 8 % 8];
    }
  }

  /** A compressed chunk that expands to its data and padding gives the data, as long as the whole
      is no longer than the reader allows; more than that is refused. */
  lemma PaddingIsCutOff(lib: Library, codec: Method, level: Level, data: Bytes, padding: Bytes, maximum: nat)
    requires Inverse(lib) && !codec.Zstd? && |data| <= maximum
    ensures DecodeChunk(lib, lib.compress(codec, level, data + padding), if codec.Zlib? then ZlibData else Bzip2Data,
                        |data|, maximum)
            == if |data + padding| <= maximum then Ok(data) else Err
  {
    assert (data + padding)[..|data|] == data;
  }

  /** One pattern of eight bytes, repeated, is the whole chunk of an EWF2 image. */
  ghost predicate IsFilled(chunk: Bytes, options: EncodeOptions) {
    options.ewf2 && chunk != [] && exists p: nat | p < U64 :: PatternBytes(p, |chunk|) == chunk
  }

  /** A full chunk of zeros in an EWF1 image that compresses empty blocks. */
  predicate IsEmptyBlock(chunk: Bytes, options: EncodeOptions, chunkSize: nat) {
    !options.ewf2 && options.emptyBlock && |chunk| == chunkSize && forall b <- chunk :: b == 0
  }

  /** Deflate is used exactly when it saves bytes, save for empty blocks, which it always takes;
      a pattern stands for a chunk exactly when there is one. */
  lemma StoredRawExactlyWhen(lib: Library, chunk: Bytes, options: EncodeOptions, chunkSize: nat)
    requires EncodeChunk(lib, chunk, options, chunkSize).Ok?
    ensures var e := EncodeChunk(lib, chunk, options, chunkSize).value;
            var saving := options.compression.Deflated? && |lib.compress(Zlib, options.level, chunk)| < |chunk|;
            && (e.pattern.Some? <==> IsFilled(chunk, options))
            && (e.compressed <==> IsFilled(chunk, options) || IsEmptyBlock(chunk, options, chunkSize)
                                  || saving || options.compression.Bzipped?)
            && (!e.compressed ==> e.hasChecksum && |e.bytes| == |chunk| + 4)
            && (e.compressed && options.compression.Deflated? && !IsEmptyBlock(chunk, options, chunkSize) ==>
                  |e.bytes| < |chunk|)
  {
    PatternRoundTrip(chunk);
    hide RepeatedPattern, PatternBytes, Adler32;
    assert IsEmptyBlock(chunk, options, chunkSize) <==>
             !options.ewf2 && options.emptyBlock && chunk == Zeros(chunkSize) by {
      if |chunk| == chunkSize && forall b <- chunk :: b == 0 {
        assert forall i | 0 <= i < |chunk| :: chunk[i] in chunk;
        assert chunk == Zeros(chunkSize);
      }
    }
  }

  lemma RawDecodes(lib: Library, chunk: Bytes, options: EncodeOptions)
    ensures Decodes(lib, EncodeRaw(chunk), options, chunk)
  {
    var e := EncodeRaw(chunk);
    assert e.bytes[..|chunk|] == chunk && e.bytes[|chunk|..|chunk| + 4] == Le(Adler32(chunk), 4);
    Le4RoundTrip(Adler32(chunk));
  }

  /** What zlib and bzip2 promise about the size of their output. */
  ghost predicate OutputIsBounded(lib: Library) {
    && (forall level, b :: 0 < |lib.compress(Zlib, level, b)| <= CompressBound(|b|))
    && (forall level, b :: 0 < |lib.compress(Bzip2, level, b)| <= |b| + |b| / 100 + 600)
  }

  /** The caps fit 64 bits; the reader refuses every chunk otherwise. */
  predicate CapsExist(chunkSize: nat) {
    RawCap(chunkSize).Ok? && ZlibCap(chunkSize).Ok? && Bzip2Cap(chunkSize).Ok?
  }

  lemma SizesUnderCaps(size: nat, chunkSize: nat)
    requires 0 < size && CapsExist(chunkSize)
    ensures size <= chunkSize + 4 ==> SizeAccepted(size, chunkSize, RawData).Ok?
    ensures size <= CompressBound(chunkSize) ==> SizeAccepted(size, chunkSize, ZlibData).Ok?
    ensures size <= chunkSize + chunkSize / 100 + 600 ==> SizeAccepted(size, chunkSize, Bzip2Data).Ok?
  {}

  lemma BoundsGrow(n: nat, m: nat)
    requires n <= m
    ensures CompressBound(n) <= CompressBound(m) && n + n / 100 + 600 <= m + m / 100 + 600
    ensures m <= CompressBound(m)
  {
    SharesGrow(n, m);
  }

  lemma SharesGrow(n: nat, m: nat)
    requires n <= m
    ensures n / 4096 <= m / 4096 && n / 16384 <= m / 16384 && n / 33554432 <= m / 33554432 && n / 100 <= m / 100
  {
  }

  /** Whatever branch the encoder takes, the reader accepts the size of what it made. */
  lemma FreshSizeIsAccepted(lib: Library, chunk: Bytes, options: EncodeOptions, chunkSize: nat)
    requires OutputIsBounded(lib) && |chunk| <= chunkSize && CapsExist(chunkSize)
    requires options.compression.Bzipped? ==> options.ewf2
    ensures var e := EncodeChunk(lib, chunk, options, chunkSize);
            e.Ok? ==> && SizeAccepted(|e.value.bytes|, chunkSize, EncodingOf(e.value, options)).Ok?
                      && (e.value.pattern.Some? ==> options.ewf2 && e.value.compressed && e.value.pattern.value < U64)
  {
    var e := EncodeChunk(lib, chunk, options, chunkSize);
    if e.Ok? {
      BoundsGrow(|chunk|, chunkSize);
      if e.value.pattern.None? && |e.value.bytes| > 0 { SizesUnderCaps(|e.value.bytes|, chunkSize); }
      if e.value.pattern.Some? { NoSizeForPatterns(|e.value.bytes|, chunkSize, e.value.pattern.value); }
    }
    hide RepeatedPattern, Adler32, SizeAccepted, CompressBound, CapsExist;
  }

  lemma NoSizeForPatterns(size: nat, chunkSize: nat, pattern: nat)
    ensures SizeAccepted(size, chunkSize, PatternFill(pattern)).Ok?
  {}

  /** Decoding undoes encoding, whichever branch the encoder takes. */
  lemma EncodingRoundTrip(lib: Library, chunk: Bytes, options: EncodeOptions, chunkSize: nat)
    requires Inverse(lib) && (options.compression.Bzipped? ==> options.ewf2)
    ensures EncodeChunk(lib, chunk, options, chunkSize).Ok? ==>
            Decodes(lib, EncodeChunk(lib, chunk, options, chunkSize).value, options, chunk)
    ensures EncodeChunk(lib, chunk, options, chunkSize).Err? ==> options.compression.Bzipped? && options.level.NoLevel?
  {
    RawDecodes(lib, chunk, options);
    PatternRoundTrip(chunk);
    hide EncodeRaw, RepeatedPattern, PatternBytes, Adler32;
    assert chunk[..|chunk|] == chunk;
  }
}
