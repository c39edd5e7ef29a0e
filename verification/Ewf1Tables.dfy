/** EWF1 chunk tables: 31-bit relative offsets as the writer prints them (src/writer.rs,
    `append_ewf1_table_data`) and as the reader resolves them (src/image.rs,
    `parse_ewf1_ranges`, `lookup_ewf1_chunk`, `decode_ewf1_entry`). */
module Ewf1Tables {
  import opened Basics
  import opened ChunkCodec
  import opened Ewf1Sections

  const TABLE_HEADER_SIZE: nat := 24

  /** One encoded chunk as the writer's spool holds it. */
  datatype Chunk = Chunk(bytes: Bytes, compressed: bool)

  datatype MediaMethod = MethodZlib | MethodZstd | MethodOther
  datatype Profile = Profile(allowLarge: bool, mediaMethod: MediaMethod)

  /** Where chunk `i` starts, relative to the group's first chunk. */
  function RelativeOffset(chunks: seq<Chunk>, i: nat): nat
    requires i <= |chunks|
  {
    if i == 0 then 0 else RelativeOffset(chunks, i - 1) + |chunks[i - 1].bytes|
  }

  function TotalSize(chunks: seq<Chunk>): nat { RelativeOffset(chunks, |chunks|) }

  function PayloadTo(chunks: seq<Chunk>, n: nat): (b: Bytes)
    requires n <= |chunks|
    ensures |b| == RelativeOffset(chunks, n)
  {
    if n == 0 then [] else PayloadTo(chunks, n - 1) + chunks[n - 1].bytes
  }

  function Payload(chunks: seq<Chunk>): (b: Bytes)
    ensures |b| == TotalSize(chunks)
  {
    PayloadTo(chunks, |chunks|)
  }

  // ---------------------------------------------------------------- printing a table

  function EntryValue(chunks: seq<Chunk>, i: nat): nat
    requires i < |chunks|
  {
    RelativeOffset(chunks, i) + (if chunks[i].compressed then U31 else 0)
  }

  function Entries(chunks: seq<Chunk>, count: nat): (b: Bytes)
    requires count <= |chunks|
    ensures |b| == 4 * count
  {
    if count == 0 then [] else Entries(chunks, count - 1) + Le(EntryValue(chunks, count - 1), 4)
  }

  function HeaderBody(count: nat, base: nat): (b: Bytes)
    ensures |b| == 20
  {
    Le(count, 4) + Zeros(4) + Le(base, 8) + Zeros(4)
  }

  function HeaderBytes(count: nat, base: nat): (b: Bytes)
    ensures |b| == TABLE_HEADER_SIZE
  {
    HeaderBody(count, base) + Le(Adler32(HeaderBody(count, base)), 4)
  }

  function Footer(entries: Bytes, footer: bool): (b: Bytes)
    ensures |b| == if footer then 4 else 0
  {
    if footer then Le(Adler32(entries), 4) else []
  }

  function TableData(chunks: seq<Chunk>, base: nat, footer: bool): (b: Bytes)
    ensures |b| == TABLE_HEADER_SIZE + 4 * |chunks| + (if footer then 4 else 0)
  {
    HeaderBytes(|chunks|, base) + Entries(chunks, |chunks|) + Footer(Entries(chunks, |chunks|), footer)
  }

  /** Every entry's offset fits 31 bits. */
  ghost predicate Addressable(chunks: seq<Chunk>) {
    forall i | 0 <= i < |chunks| :: RelativeOffset(chunks, i) < U31
  }

  /** `append_ewf1_table_data`: fails exactly when some entry does not fit 31 bits. */
  method AppendTableData(bytes: Bytes, base: nat, chunks: seq<Chunk>, footer: bool) returns (r: Result<Bytes>)
    ensures r.Ok? <==> Addressable(chunks)
    ensures r.Ok? ==> r.value == bytes + TableData(chunks, base, footer)
  {
    var header := HeaderBody(|chunks|, base);
    var headerChecksum := ComputeAdler32(header);
    var entries, relative := [], 0;
    for i := 0 to |chunks|
      invariant relative == RelativeOffset(chunks, i)
      invariant entries == Entries(chunks, i)
      invariant forall j | 0 <= j < i :: RelativeOffset(chunks, j) < U31
    {
      if relative >= U31 { return Err; }
      entries := entries + Le(relative + (if chunks[i].compressed then U31 else 0), 4);
      relative := relative + |chunks[i].bytes|;
    }
    var footerBytes := [];
    if footer {
      var checksum := ComputeAdler32(entries);
      footerBytes := Le(checksum, 4);
    }
    r := Ok(bytes + (header + Le(headerChecksum, 4) + entries + footerBytes));
  }

  // ---------------------------------------------------------------- size caps
  /** `validate_ewf1_encoded_size` */
  function Ewf1SizeAccepted(size: nat, chunkSize: nat, encoding: Encoding, allowLarge: bool): Result<()> {
    if encoding.ZlibData? then
      var standard :- ZlibCap(chunkSize);
      if !allowLarge && size <= standard then SizeAccepted(size, chunkSize, encoding)
      else if size == 0 then Err
      else
        var maximum :- DoubleCap(chunkSize);
        if size > maximum then Err else Ok(())
    else SizeAccepted(size, chunkSize, encoding)
  }

  /** The chunk is within the caps the reader will apply to it. */
  predicate WithinCaps(c: Chunk, chunkSize: nat, profile: Profile) {
    && |c.bytes| > 0
    && if c.compressed then
         && profile.mediaMethod.MethodZlib?
         && ZlibCap(chunkSize).Ok? && |c.bytes| <= ZlibCap(chunkSize).value
         && (profile.allowLarge ==> DoubleCap(chunkSize).Ok? && |c.bytes| <= DoubleCap(chunkSize).value)
       else RawCap(chunkSize).Ok? && |c.bytes| <= RawCap(chunkSize).value
  }

  // ---------------------------------------------------------------- ranges

  datatype TableRange = TableRange(
    firstChunk: nat, chunkCount: nat, entriesOffset: nat, baseOffset: nat, dataEnd: nat, profile: Profile)

  predicate ContainsOffset(s: Section, offset: nat) {
    s.dataOffset <= offset <= s.DataEnd()
  }

  /** `matching_sectors_section` and `sectors_section_containing_offset`: the first match. */
  function FindSectors(sections: seq<Section>, offset: nat, orDescriptor: bool, from: nat): Option<Section>
    requires from <= |sections|
    decreases |sections| - from
  {
    if from == |sections| then None
    else if sections[from].kind == SECTORS
            && (ContainsOffset(sections[from], offset) || (orDescriptor && sections[from].offset == offset)) then
                Some(sections[from])
    else FindSectors(sections, offset, orDescriptor, from + 1)
  }

  datatype Previous = NoTable | Table(wasTable: bool, count: nat, base: nat)
  datatype ParseState = ParseState(ranges: seq<TableRange>, nextChunk: nat, previous: Previous)

  predicate IsTable(kind: Bytes) { kind == TABLE || kind == TABLE2 }

  /** Number of entries and base offset in a table header. */
  function TableHeader(file: Bytes, s: Section): Result<(nat, nat)> {
    if s.dataSize < TABLE_HEADER_SIZE then Err
    else
      var data :- ReadExact(file, s.dataOffset, TABLE_HEADER_SIZE);
      if !ChecksumAccepted(FromLe(data[20..24]), data[..20]) then Err
      else Ok((FromLe(data[..4]), FromLe(data[8..16])))
  }

  /** The data region a table's entries point into: a sectors section, or the table itself. */
  function DataRegion(file: Bytes, sections: seq<Section>, s: Section, base: nat, entriesEnd: nat): Result<(nat, nat)> {
    var first :- (if base == 0 then ReadExact(file, s.dataOffset + TABLE_HEADER_SIZE, 4) else Ok(Zeros(4)));
    var firstOffset := FromLe(first) % U31;
    var resident := base == 0 && firstOffset == entriesEnd;
    var stored :- (if entriesEnd + 4 <= s.DataEnd() && !resident then ReadExact(file, entriesEnd, 4) else Ok(Zeros(4)));
    var start := s.dataOffset + TABLE_HEADER_SIZE;
    var entries :- ReadExact(file, start, if entriesEnd >= start then entriesEnd - start else 0);
    if !ChecksumAccepted(FromLe(stored), entries) then Err
    else
      match (if FindSectors(sections, base, true, 0).Some? then FindSectors(sections, base, true, 0)
             else if base == 0 then FindSectors(sections, firstOffset, false, 0) else None)
      case Some(sectors) => Ok((base, sectors.DataEnd()))
      case None =>
        if (if resident then entriesEnd else entriesEnd + 4) > s.DataEnd() then Err else Ok((0, s.DataEnd()))
  }

  /** One iteration of the loop in `parse_ewf1_ranges`. */
  function ParseSection(file: Bytes, sections: seq<Section>, s: Section, profile: Profile,
                        state: ParseState): Result<ParseState> {
    if !IsTable(s.kind) then Ok(state)
    else
      var header :- TableHeader(file, s);
      var (count, base) := header;
      if count == 0 || (s.kind == TABLE2 && state.previous == Table(true, count, base)) then Ok(state)
      else
        var entriesOffset := s.dataOffset + TABLE_HEADER_SIZE;
        if entriesOffset + 4 * count > s.DataEnd() then Err
        else
          var region :- DataRegion(file, sections, s, base, entriesOffset + 4 * count);
          Ok(ParseState(
               state.ranges + [TableRange(state.nextChunk, count, entriesOffset, region.0, region.1, profile)],
               state.nextChunk + count,
               Table(s.kind == TABLE, count, base)))
  }

  function ParseSections(file: Bytes, sections: seq<Section>, i: nat, j: nat, profile: Profile,
                         state: ParseState): Result<ParseState>
    requires i <= j <= |sections|
    decreases j - i
  {
    if i == j then Ok(state)
    else
      var next :- ParseSection(file, sections, sections[i], profile, state);
      ParseSections(file, sections, i + 1, j, profile, next)
  }

  method ParseRanges(file: Bytes, sections: seq<Section>, firstChunk: nat, logicalSize: nat, profile: Profile)
    returns (r: Result<seq<TableRange>>)
    ensures var parsed := ParseSections(file, sections, 0, |sections|, profile, ParseState([], firstChunk, NoTable));
            r == if parsed.Ok? && (parsed.value.ranges != [] || logicalSize == 0) then Ok(parsed.value.ranges) else Err
  {
    var state := ParseState([], firstChunk, NoTable);
    for i := 0 to |sections|
      invariant ParseSections(file, sections, i, |sections|, profile, state)
                == ParseSections(file, sections, 0, |sections|, profile, ParseState([], firstChunk, NoTable))
    {
      var next := ParseSection(file, sections, sections[i], profile, state);
      if next.Err? { return Err; }
      state := next.value;
    }
    if state.ranges == [] && logicalSize > 0 { return Err; }
    return Ok(state.ranges);
  }

  // ---------------------------------------------------------------- looking a chunk up

  /** `should_use_full_width_ewf1_offset`: in a region over 2 GiB, the top bit may be an offset bit. */
  function FullWidth(range: TableRange, raw: nat, masked: nat, chunkSize: nat, nextRaw: Option<nat>,
                     final: bool): Result<bool> {
    if raw < U31 then Ok(false)
    else if range.dataEnd < range.baseOffset then Err
    else if range.dataEnd - range.baseOffset <= U31 then Ok(false)
    else if range.baseOffset + raw >= U64 then Err
    else if range.baseOffset + raw >= range.dataEnd then Ok(false)
    else
      var full := range.baseOffset + raw;
      match nextRaw
      case Some(next) =>
        var nextMasked := range.baseOffset + next % U31;
        var zlibCap :- (if nextMasked > masked then ZlibCap(chunkSize) else Ok(0));
        if nextMasked > masked && nextMasked - masked <= zlibCap then Ok(false)
        else
          var nextFull := if next >= U31 then range.baseOffset + next else nextMasked;
          if nextFull <= full then Ok(false)
          else
            var rawCap :- RawCap(chunkSize);
            Ok(nextFull - full <= rawCap)
      case None =>
        if !final then Ok(false)
        else
          var zlibCap :- ZlibCap(chunkSize);
          var maskedSize := if range.dataEnd >= masked then range.dataEnd - masked else 0;
          if maskedSize <= zlibCap then Ok(false)
          else
            var rawCap :- RawCap(chunkSize);
            Ok(range.dataEnd - full <= rawCap)
  }

  datatype Entry = Entry(compressed: bool, offset: nat)

  function DecodeEntry(range: TableRange, raw: nat, chunkSize: nat, nextRaw: Option<nat>, final: bool): Result<Entry> {
    var masked := range.baseOffset + raw % U31;
    var full :- FullWidth(range, raw, masked, chunkSize, nextRaw, final);
    if full then Ok(Entry(false, range.baseOffset + raw)) else Ok(Entry(raw >= U31, masked))
  }

  function Ewf1Encoding(compressed: bool, size: nat, chunkSize: nat, mediaMethod: MediaMethod): Result<Encoding> {
    if compressed then
      match mediaMethod
      case MethodZlib => Ok(ZlibData)
      case MethodZstd => Ok(ZstdData)
      case MethodOther => Err
    else if !mediaMethod.MethodZlib? then Ok(RawData)
    else
      var rawCap :- RawCap(chunkSize);
      if size <= rawCap then Ok(RawData)
      else
        var zlibCap :- ZlibCap(chunkSize);
        Ok(if size <= zlibCap then ZlibData else RawData)
  }

  datatype Located = Located(offset: nat, size: nat, encoding: Encoding)

  function Lookup(file: Bytes, range: TableRange, i: nat, chunkSize: nat): Result<Located> {
    var rawBytes :- ReadExact(file, range.entriesOffset + 4 * i, 4);
    var nextBytes :- (if i + 1 < range.chunkCount then ReadExact(file, range.entriesOffset + 4 * (i + 1), 4)
                      else Ok(Zeros(4)));
    var nextRaw := if i + 1 < range.chunkCount then Some(FromLe(nextBytes)) else None;
    var entry :- DecodeEntry(range, FromLe(rawBytes), chunkSize, nextRaw, i + 1 == range.chunkCount);
    var end :- (if nextRaw.Some? then NextOffset(range, nextRaw.value, chunkSize, i + 2 == range.chunkCount)
                else Ok(range.dataEnd));
    if end <= entry.offset then Err
    else
      var encoding :- Ewf1Encoding(entry.compressed, end - entry.offset, chunkSize, range.profile.mediaMethod);
      var _ :- Ewf1SizeAccepted(end - entry.offset, chunkSize, encoding, range.profile.allowLarge);
      Ok(Located(entry.offset, end - entry.offset, encoding))
  }

  function NextOffset(range: TableRange, raw: nat, chunkSize: nat, final: bool): Result<nat> {
    var entry :- DecodeEntry(range, raw, chunkSize, None, final);
    Ok(entry.offset)
  }
}
