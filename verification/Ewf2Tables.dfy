/** EWF2 sector tables (src/writer.rs, `write_ewf2_segment`; src/image.rs,
    `parse_ewf2_ranges` and `lookup_ewf2_chunk`; src/format/ewf2.rs). */
module Ewf2Tables {
  import opened Basics
  import opened ChunkCodec
  import opened Ewf2Sections

  const ENTRY_SIZE: nat := 16
  const SHORT_HEADER_SIZE: nat := 20
  const HEADER_SIZE: nat := 32
  const FOOTER_SIZE: nat := 16

  datatype SegmentMethod = MethodNone | MethodZlib | MethodBzip2 | MethodUnknown

  /** `CompressionMethod::from` */
  function MethodOf(code: nat): SegmentMethod {
    match code
    case 0 => MethodNone
    case 1 => MethodZlib
    case 2 => MethodBzip2
    case _ => MethodUnknown
  }

  /** `ewf2_compression_method`: a segment of raw chunks still names zlib. */
  function MethodCode(compression: Compression): nat { if compression.Bzipped? then 2 else 1 }

  datatype TableRange = TableRange(firstChunk: nat, chunkCount: nat, entriesOffset: nat)

  // ---------------------------------------------------------------- printing a table

  function Flags(e: EncodedChunk): nat {
    (if e.compressed then 1 else 0) + (if e.hasChecksum then 2 else 0) + (if e.pattern.Some? then 4 else 0)
  }

  function ChunkOffset(chunks: seq<EncodedChunk>, start: nat, i: nat): nat
    requires i <= |chunks|
  {
    if i == 0 then start else ChunkOffset(chunks, start, i - 1) + |chunks[i - 1].bytes|
  }

  /** An entry's first field: the pattern of a pattern-filled chunk, else where its bytes are. */
  function EntryValue(chunks: seq<EncodedChunk>, start: nat, i: nat): nat
    requires i < |chunks|
  {
    if chunks[i].pattern.Some? then chunks[i].pattern.value else ChunkOffset(chunks, start, i)
  }

  function EntryBytes(value: nat, size: nat, flags: nat): (b: Bytes)
    ensures |b| == ENTRY_SIZE
  {
    Le(value, 8) + Le(size, 4) + Le(flags, 4)
  }

  function Entries(chunks: seq<EncodedChunk>, start: nat, n: nat): (b: Bytes)
    requires n <= |chunks|
    ensures |b| == ENTRY_SIZE * n
  {
    if n == 0 then []
    else
      Entries(chunks, start, n - 1)
      + EntryBytes(EntryValue(chunks, start, n - 1), |chunks[n - 1].bytes|, Flags(chunks[n - 1]))
  }

  function HeaderBody(firstChunk: nat, count: nat): (b: Bytes)
    ensures |b| == 16
  {
    Le(firstChunk, 8) + Le(count, 4) + Zeros(4)
  }

  function HeaderBytes(firstChunk: nat, count: nat): (b: Bytes)
    ensures |b| == HEADER_SIZE
  {
    HeaderBody(firstChunk, count) + Le(Adler32(HeaderBody(firstChunk, count)), 4) + Zeros(12)
  }

  function FooterBytes(entries: Bytes): (b: Bytes)
    ensures |b| == FOOTER_SIZE
  {
    Le(Adler32(entries), 4) + Zeros(12)
  }

  function TableData(chunks: seq<EncodedChunk>, firstChunk: nat, start: nat): (b: Bytes)
    ensures |b| == HEADER_SIZE + ENTRY_SIZE * |chunks| + FOOTER_SIZE
  {
    HeaderBytes(firstChunk, |chunks|) + Entries(chunks, start, |chunks|) + FooterBytes(Entries(chunks, start, |chunks|))
  }

  function PayloadTo(chunks: seq<EncodedChunk>, n: nat): (b: Bytes)
    requires n <= |chunks|
    ensures |b| == ChunkOffset(chunks, 0, n)
  {
    if n == 0 then [] else PayloadTo(chunks, n - 1) + chunks[n - 1].bytes
  }

  /** What an entry has room for. */
  predicate Fits(e: EncodedChunk) {
    |e.bytes| < U32 && (e.pattern.Some? ==> e.pattern.value < U64)
  }

  /** The loop that prints the entries; it fails exactly when a chunk does not fit 32 bits. */
  method PrintEntries(chunks: seq<EncodedChunk>, start: nat) returns (r: Result<Bytes>)
    requires ChunkOffset(chunks, start, |chunks|) < U64
    ensures r.Ok? <==> forall i | 0 <= i < |chunks| :: |chunks[i].bytes| < U32
    ensures r.Ok? ==> r.value == Entries(chunks, start, |chunks|)
  {
    var entries, offset := [], start;
    for i := 0 to |chunks|
      invariant entries == Entries(chunks, start, i) && offset == ChunkOffset(chunks, start, i)
      invariant forall j | 0 <= j < i :: |chunks[j].bytes| < U32
    {
      if |chunks[i].bytes| >= U32 { return Err; }
      var value := if chunks[i].pattern.Some? then chunks[i].pattern.value else offset;
      entries := entries + EntryBytes(value, |chunks[i].bytes|, Flags(chunks[i]));
      offset := offset + |chunks[i].bytes|;
    }
    return Ok(entries);
  }

  // ---------------------------------------------------------------- parsing tables

  /** First chunk and entry count of a table header, when its checksum is accepted. */
  function TableHeader(file: Bytes, s: Section): Result<(nat, nat)> {
    var size := if s.dataSize >= HEADER_SIZE then HEADER_SIZE else SHORT_HEADER_SIZE;
    if s.dataSize < (if s.leading then SHORT_HEADER_SIZE else HEADER_SIZE) then Err
    else
      var data :- ReadExact(file, s.dataOffset, size);
      if !ChecksumAccepted(FromLe(data[16..20]), data[..16]) then Err
      else Ok((FromLe(data[..8]), FromLe(data[8..12])))
  }

  /** Where a table's entries start: leading tables may have a short header. */
  function EntriesOffset(s: Section, count: nat): nat {
    if !s.leading || s.dataSize >= HEADER_SIZE + ENTRY_SIZE * count then s.dataOffset + HEADER_SIZE
    else s.dataOffset + SHORT_HEADER_SIZE
  }

  predicate EntriesAccepted(file: Bytes, s: Section, entriesOffset: nat, entriesEnd: nat)
    requires entriesOffset <= entriesEnd
  {
    entriesEnd + FOOTER_SIZE > s.DataEnd()
    || (var stored := ReadExact(file, entriesEnd, 4);
        stored.Ok? && (FromLe(stored.value) == 0
                       || (entriesEnd <= |file| && FromLe(stored.value) == Adler32(file[entriesOffset..entriesEnd]))))
  }

  /** One iteration of the loop in `parse_ewf2_ranges`; `None` when the section adds no range. */
  function ParseSection(file: Bytes, s: Section): Result<Option<TableRange>> {
    if s.kind != SECTOR_TABLE then Ok(None)
    else
      var header :- TableHeader(file, s);
      if header.1 == 0 then Ok(None)
      else
        var entriesOffset := EntriesOffset(s, header.1);
        var entriesEnd := entriesOffset + ENTRY_SIZE * header.1;
        if entriesEnd > s.DataEnd() || !EntriesAccepted(file, s, entriesOffset, entriesEnd) then Err
        else Ok(Some(TableRange(header.0, header.1, entriesOffset)))
  }

  function ParseSections(file: Bytes, sections: seq<Section>, n: nat): Result<seq<TableRange>>
    requires n <= |sections|
  {
    if n == 0 then Ok([])
    else
      var before :- ParseSections(file, sections, n - 1);
      var range :- ParseSection(file, sections[n - 1]);
      Ok(if range.Some? then before + [range.value] else before)
  }

  // ---------------------------------------------------------------- looking a chunk up

  datatype Located = Located(offset: nat, size: nat, encoding: Encoding, validate: bool)

  function EntryEncoding(value: nat, flags: nat, segmentMethod: SegmentMethod): Result<Encoding> {
    if flags / 4 % 2 == 1 && flags % 2 == 1 then Ok(PatternFill(value))
    else if flags % 2 == 1 then
      match segmentMethod
      case MethodNone => Ok(RawData)
      case MethodZlib => Ok(ZlibData)
      case MethodBzip2 => Ok(Bzip2Data)
      case MethodUnknown => Err
    else Ok(RawData)
  }

  /** `lookup_ewf2_chunk` */
  function Lookup(file: Bytes, range: TableRange, segmentMethod: SegmentMethod, i: nat,
                  chunkSize: nat): Result<Located> {
    var b :- ReadExact(file, range.entriesOffset + ENTRY_SIZE * i, ENTRY_SIZE);
    var value, size, flags := FromLe(b[..8]), FromLe(b[8..12]), FromLe(b[12..16]);
    var encoding :- EntryEncoding(value, flags, segmentMethod);
    var _ :- SizeAccepted(size, chunkSize, encoding);
    Ok(Located(value, size, encoding, encoding.RawData? && flags / 2 % 2 == 1))
  }

  /** In any file, a chunk that is found is a pattern, or not empty and no larger than its encoding
      allows. */
  lemma LookupIsBounded(file: Bytes, range: TableRange, segmentMethod: SegmentMethod, i: nat, chunkSize: nat)
    requires Lookup(file, range, segmentMethod, i, chunkSize).Ok?
    ensures var found := Lookup(file, range, segmentMethod, i, chunkSize).value;
            && (!found.encoding.PatternFill? ==> found.size > 0)
            && match found.encoding
               case RawData => found.size <= chunkSize + 4
               case ZlibData => ZlibCap(chunkSize).Ok? && found.size <= ZlibCap(chunkSize).value
               case Bzip2Data => found.size <= chunkSize + chunkSize / 100 + 4096
               case PatternFill(_) => true
               case ZstdData => false
  {
    hide FromLe, ReadExact, ZlibCap;
  }

  // ---------------------------------------------------------------- round trips

  lemma EntryFields(value: nat, size: nat, flags: nat)
    requires value < U64 && size < U32 && flags < U32
    ensures var b := EntryBytes(value, size, flags);
            FromLe(b[..8]) == value && FromLe(b[8..12]) == size && FromLe(b[12..16]) == flags
  {
    hide Le;
    var b := EntryBytes(value, size, flags);
    assert b[..8] == Le(value, 8) && b[8..12] == Le(size, 4) && b[12..16] == Le(flags, 4);
    Le8RoundTrip(value);
    Le4RoundTrip(size);
    Le4RoundTrip(flags);
  }

  lemma {:induction false} EntryIsHeld(file: Bytes, offset: nat, chunks: seq<EncodedChunk>, start: nat, n: nat, i: nat)
    requires i < n <= |chunks| && HoldsAt(file, offset, Entries(chunks, start, n))
    ensures HoldsAt(file, offset + ENTRY_SIZE * i,
                    EntryBytes(EntryValue(chunks, start, i), |chunks[i].bytes|, Flags(chunks[i])))
    decreases n
  {
    hide EntryBytes, HoldsAt;
    SplitHolds(file, offset, Entries(chunks, start, n - 1),
               EntryBytes(EntryValue(chunks, start, n - 1), |chunks[n - 1].bytes|, Flags(chunks[n - 1])));
    if i < n - 1 { EntryIsHeld(file, offset, chunks, start, n - 1, i); }
  }

  lemma {:induction false} ChunkIsHeld(file: Bytes, offset: nat, chunks: seq<EncodedChunk>, n: nat, i: nat)
    requires i < n <= |chunks| && HoldsAt(file, offset, PayloadTo(chunks, n))
    ensures HoldsAt(file, ChunkOffset(chunks, offset, i), chunks[i].bytes)
    decreases n
  {
    hide HoldsAt;
    SplitHolds(file, offset, PayloadTo(chunks, n - 1), chunks[n - 1].bytes);
    OffsetsShift(chunks, offset, n - 1);
    if i < n - 1 { ChunkIsHeld(file, offset, chunks, n - 1, i); }
  }

  lemma {:induction false} OffsetsShift(chunks: seq<EncodedChunk>, offset: nat, i: nat)
    requires i <= |chunks|
    ensures ChunkOffset(chunks, offset, i) == offset + ChunkOffset(chunks, 0, i)
  {
    if i > 0 { OffsetsShift(chunks, offset, i - 1); }
  }

  /** The reader's flags test sees what the writer set. */
  lemma FlagsRoundTrip(e: EncodedChunk, options: EncodeOptions, value: nat)
    requires e.pattern.Some? ==> e.compressed && value == e.pattern.value
    requires options.ewf2
    ensures EntryEncoding(value, Flags(e), MethodOf(MethodCode(options.compression))) == Ok(EncodingOf(e, options))
    ensures Flags(e) / 2 % 2 == 1 <==> e.hasChecksum
  {}

  /** Looking a written chunk up gives the offset (or the pattern), size, encoding and checksum
      flag it was written with. */
  lemma EntryRoundTrip(file: Bytes, range: TableRange, chunks: seq<EncodedChunk>, start: nat, i: nat,
                       options: EncodeOptions, chunkSize: nat)
    requires HoldsAt(file, range.entriesOffset, Entries(chunks, start, |chunks|)) && i < |chunks|
    requires Fits(chunks[i]) && ChunkOffset(chunks, start, i) < U64 && options.ewf2
    requires chunks[i].pattern.Some? ==> chunks[i].compressed
    ensures var encoding := EncodingOf(chunks[i], options);
            Lookup(file, range, MethodOf(MethodCode(options.compression)), i, chunkSize)
            == if SizeAccepted(|chunks[i].bytes|, chunkSize, encoding).Ok? then
                 Ok(Located(EntryValue(chunks, start, i), |chunks[i].bytes|, encoding,
                            encoding.RawData? && chunks[i].hasChecksum))
               else Err
  {
    hide Entries, EntryBytes, SizeAccepted, EncodingOf, Flags, EntryEncoding;
    var e, value := chunks[i], EntryValue(chunks, start, i);
    EntryIsHeld(file, range.entriesOffset, chunks, start, |chunks|, i);
    FlagsAreSmall(e);
    EntryFields(value, |e.bytes|, Flags(e));
    FlagsRoundTrip(e, options, value);
    assert ReadExact(file, range.entriesOffset + ENTRY_SIZE * i, ENTRY_SIZE)
        == Ok(EntryBytes(value, |e.bytes|, Flags(e)));
  }

  lemma FlagsAreSmall(e: EncodedChunk)
    ensures Flags(e) < U32
  {}

  lemma HeaderFields(firstChunk: nat, count: nat)
    requires firstChunk < U64 && count < U32
    ensures var b := HeaderBytes(firstChunk, count);
            FromLe(b[..8]) == firstChunk && FromLe(b[8..12]) == count && ChecksumAccepted(FromLe(b[16..20]), b[..16])
  {
    hide Adler32, Le;
    var body, b := HeaderBody(firstChunk, count), HeaderBytes(firstChunk, count);
    assert b[..8] == Le(firstChunk, 8) && b[8..12] == Le(count, 4) && b[..16] == body
        && b[16..20] == Le(Adler32(body), 4);
    Le8RoundTrip(firstChunk);
    Le4RoundTrip(count);
    Le4RoundTrip(Adler32(body));
  }

  lemma FooterField(entries: Bytes)
    ensures FromLe(FooterBytes(entries)[..4]) == Adler32(entries)
  {
    hide Adler32, Le;
    assert FooterBytes(entries)[..4] == Le(Adler32(entries), 4);
    Le4RoundTrip(Adler32(entries));
  }

  /** A table section holding printed header, entries and footer parses to its range. */
  lemma PrintedTableIsParsed(file: Bytes, s: Section, header: Bytes, entries: Bytes, footer: Bytes, firstChunk: nat,
                             count: nat)
    requires s.kind == SECTOR_TABLE && !s.leading && s.dataSize == |header + entries + footer| && count > 0
    requires HoldsAt(file, s.dataOffset, header + entries + footer)
    requires |header| == HEADER_SIZE && |entries| == ENTRY_SIZE * count && |footer| == FOOTER_SIZE
    requires FromLe(header[..8]) == firstChunk && FromLe(header[8..12]) == count
            && ChecksumAccepted(FromLe(header[16..20]), header[..16])
    requires FromLe(footer[..4]) == Adler32(entries)
    ensures ParseSection(file, s) == Ok(Some(TableRange(firstChunk, count, s.dataOffset + HEADER_SIZE)))
    ensures HoldsAt(file, s.dataOffset + HEADER_SIZE, entries)
  {
    hide FromLe, Adler32, ChecksumAccepted;
    SplitThree(file, s.dataOffset, header, entries, footer);
    assert ReadExact(file, s.dataOffset, HEADER_SIZE) == Ok(header);
    var end := s.dataOffset + HEADER_SIZE + ENTRY_SIZE * count;
    SplitHolds(file, end, footer[..4], footer[4..]) by { assert footer[..4] + footer[4..] == footer; }
    assert ReadExact(file, end, 4) == Ok(footer[..4]);
    assert file[s.dataOffset + HEADER_SIZE..end] == entries;
  }

  lemma TableRoundTrip(file: Bytes, s: Section, chunks: seq<EncodedChunk>, firstChunk: nat, start: nat)
    requires s.kind == SECTOR_TABLE && !s.leading && s.dataSize == |TableData(chunks, firstChunk, start)|
    requires HoldsAt(file, s.dataOffset, TableData(chunks, firstChunk, start))
    requires 0 < |chunks| < U32 && firstChunk < U64
    ensures ParseSection(file, s) == Ok(Some(TableRange(firstChunk, |chunks|, s.dataOffset + HEADER_SIZE)))
    ensures HoldsAt(file, s.dataOffset + HEADER_SIZE, Entries(chunks, start, |chunks|))
  {
    hide HeaderBytes, Entries, FooterBytes, ParseSection, HoldsAt, FromLe, ChecksumAccepted;
    var header, entries := HeaderBytes(firstChunk, |chunks|), Entries(chunks, start, |chunks|);
    HeaderFields(firstChunk, |chunks|);
    FooterField(entries);
    PrintedTableIsParsed(file, s, header, entries, FooterBytes(entries), firstChunk, |chunks|);
  }
}
