/** Writing media as EWF1 segments and reading it back: the chunks the writer encodes, laid out
    over one or more segment files, are found, decoded and read as the media they came from. */
module Ewf1ReadBack {
  import opened Basics
  import opened ChunkCodec
  import opened ChunkIndex
  import opened ChunkWriter
  import opened Ewf1Sections
  import opened Ewf1Tables
  import opened Ewf1Image
  import Ewf1Groups
  import Ewf1RoundTrip
  import MediaReads

  type SegmentRange = ChunkRange<(nat, TableRange)>

  // ---------------------------------------------------------------- opening the segments

  function SegmentTables(file: Bytes, firstChunk: nat, logicalSize: nat, profile: Profile): Result<seq<TableRange>> {
    var sections :- ScanFrom(file, FILE_HEADER_SIZE);
    var parsed :- ParseSections(file, sections, 0, |sections|, profile, ParseState([], firstChunk, NoTable));
    if parsed.ranges == [] && logicalSize > 0 then Err else Ok(parsed.ranges)
  }

  function Tagged(segment: nat, tables: seq<TableRange>): (r: seq<SegmentRange>)
    ensures |r| == |tables|
    ensures forall k | 0 <= k < |r| ::
            r[k] == ChunkRange(tables[k].firstChunk, tables[k].chunkCount, (segment, tables[k]))
  {
    seq(|tables|, k requires 0 <= k < |tables| =>
      ChunkRange(tables[k].firstChunk, tables[k].chunkCount, (segment, tables[k])))
  }

  function ChunkTotal(tables: seq<TableRange>): nat {
    if tables == [] then 0 else ChunkTotal(tables[..|tables| - 1]) + tables[|tables| - 1].chunkCount
  }

  /** The ranges of the first `n` segments, each numbered after the ones before it. */
  function OpenTables(files: seq<Bytes>, n: nat, logicalSize: nat, profile: Profile): Result<(seq<SegmentRange>, nat)>
    requires n <= |files|
  {
    if n == 0 then Ok(([], 0))
    else
      var before :- OpenTables(files, n - 1, logicalSize, profile);
      var tables :- SegmentTables(files[n - 1], before.1, logicalSize, profile);
      Ok((before.0 + Tagged(n - 1, tables), before.1 + ChunkTotal(tables)))
  }

  // ---------------------------------------------------------------- reading a chunk

  /** `lookup_chunk`, `read_encoded_chunk_bytes` and `decode_chunk` of an unencrypted image. */
  function ReadChunk(lib: Library, files: seq<Bytes>, index: Index<(nat, TableRange)>, logicalSize: nat, chunkSize: nat,
                     padded: bool, id: nat): Result<Bytes> {
    var k :- RangeIndexFor(index, id);
    var range := index.ranges[k];
    if range.table.0 >= |files| then Err
    else ReadLocated(lib, files[range.table.0], range.table.1, id - range.first, chunkSize,
                     MediaReads.LogicalChunkSize(logicalSize, chunkSize, id), padded)
  }

  /** `padded`: in EnCase logical images a compressed chunk may decode to a whole chunk. */
  function ReadLocated(lib: Library, file: Bytes, table: TableRange, i: nat, chunkSize: nat, logical: nat,
                       padded: bool): Result<Bytes> {
    var found :- Lookup(file, table, i, chunkSize);
    var encoded :- ReadExact(file, found.offset, found.size);
    if found.encoding.RawData? && found.size == logical + 4 && !TrailerAccepted(encoded, logical) then Err
    else DecodeChunk(lib, encoded, found.encoding, logical, if padded then chunkSize else logical)
  }

  // ---------------------------------------------------------------- written segments

  datatype Segment = Segment(file: Bytes, layout: Layout, chunks: seq<Chunk>, groups: seq<Ewf1Groups.Group>)

  ghost predicate IsWritten(s: Segment, chunkSize: nat, profile: Profile) {
    HoldsChunks(s.file, s.layout, s.chunks, s.groups) && AllWithinCaps(s.chunks, chunkSize, profile)
  }

  ghost predicate AllWritten(segments: seq<Segment>, chunkSize: nat, profile: Profile) {
    forall m | 0 <= m < |segments| :: IsWritten(segments[m], chunkSize, profile)
  }

  function FilesOf(segments: seq<Segment>): (files: seq<Bytes>)
    ensures |files| == |segments| && forall m | 0 <= m < |files| :: files[m] == segments[m].file
  {
    seq(|segments|, m requires 0 <= m < |segments| => segments[m].file)
  }

  /** The chunks of the first `n` segments. */
  function ChunksOf(segments: seq<Segment>, n: nat): seq<Chunk>
    requires n <= |segments|
  {
    if n == 0 then [] else ChunksOf(segments, n - 1) + segments[n - 1].chunks
  }

  /** Some range finds chunk `id` in its segment. */
  ghost predicate SegmentFinds(files: seq<Bytes>, ranges: seq<SegmentRange>, k: nat, id: nat, c: Chunk, chunkSize: nat)
    requires k < |ranges|
  {
    && ranges[k].table.0 < |files|
    && ranges[k].first == ranges[k].table.1.firstChunk && ranges[k].count == ranges[k].table.1.chunkCount
    && RangeFinds(files[ranges[k].table.0], ranges[k].table.1, id, c, chunkSize)
  }

  ghost predicate ImageFinds(files: seq<Bytes>, ranges: seq<SegmentRange>, id: nat, c: Chunk, chunkSize: nat) {
    exists k | 0 <= k < |ranges| :: SegmentFinds(files, ranges, k, id, c, chunkSize)
  }

  ghost predicate ImageFindsAll(files: seq<Bytes>, ranges: seq<SegmentRange>, chunks: seq<Chunk>, chunkSize: nat) {
    forall id | 0 <= id < |chunks| :: ImageFinds(files, ranges, id, chunks[id], chunkSize)
  }

  lemma {:induction false} TotalOfContiguous(tables: seq<TableRange>, first: nat, n: nat, end: nat)
    requires Contiguous(tables, first, end) && n <= |tables|
    ensures NextChunk(tables, n, first) == first + ChunkTotal(tables[..n])
  {
    if n > 0 {
      TotalOfContiguous(tables, first, n - 1, end);
      assert tables[..n][..n - 1] == tables[..n - 1];
      assert InPlace(tables, n - 1, first);
    }
  }

  lemma SegmentIsOpened(s: Segment, firstChunk: nat, logicalSize: nat, chunkSize: nat, profile: Profile)
    requires IsWritten(s, chunkSize, profile) && s.chunks != []
    ensures var tables := SegmentTables(s.file, firstChunk, logicalSize, profile);
            && tables.Ok?
            && Contiguous(tables.value, firstChunk, firstChunk + |s.chunks|)
            && ChunkTotal(tables.value) == |s.chunks|
            && AllFound(s.file, tables.value, firstChunk, s.chunks, chunkSize)
  {
    hide HoldsChunks, AllWithinCaps, AllFound, ScanFrom, ParseSections;
    EveryChunkIsFound(s.file, s.layout, s.chunks, s.groups, firstChunk, profile, chunkSize);
    var tables := SegmentTables(s.file, firstChunk, logicalSize, profile).value;
    TotalOfContiguous(tables, firstChunk, |tables|, firstChunk + |s.chunks|);
    assert tables[..|tables|] == tables;
  }

  /** A segment without chunks, which only an image without media has, scans and parses to no
      range, and the reader takes it for exactly such an image. */
  lemma EmptySegmentIsOpened(file: Bytes, l: Layout, firstChunk: nat, logicalSize: nat, profile: Profile)
    requires IsSegmentFile(file, l) && l.groups == [[]]
    ensures SegmentTables(file, firstChunk, logicalSize, profile) == if logicalSize > 0 then Err else Ok([])
  {
    assert GroupsFit(l.groups) by { assert TotalSize([]) == 0; }
    SegmentIsParsed(file, l, firstChunk, profile);
    NoRanges(l.Plans(), |l.pre|, l.mirror, firstChunk, profile);
  }

  lemma NoRanges(plans: seq<Ewf1RoundTrip.Plan>, i: nat, mirror: bool, firstChunk: nat, profile: Profile)
    requires i + Ewf1RoundTrip.Stride(mirror) <= |plans|
    ensures Ewf1RoundTrip.RangesOf(plans, i, [[]], mirror, firstChunk, profile) == []
  {
    var none: seq<seq<Chunk>> := [[]];
    assert none[1..] == [];
  }

  lemma PartitionGrows(ranges: seq<SegmentRange>, n: nat, segment: nat, tables: seq<TableRange>, end: nat)
    requires Partitions(ranges, n) && Contiguous(tables, n, end)
    ensures Partitions(ranges + Tagged(segment, tables), end)
  {
    var all := ranges + Tagged(segment, tables);
    forall k | 0 <= k < |all| ensures Follows(all, k) {
      if k < |ranges| { assert Follows(ranges, k); } else { assert InPlace(tables, k - |ranges|, n); }
    }
  }

  lemma EarlierIsFound(files: seq<Bytes>, ranges: seq<SegmentRange>, more: seq<SegmentRange>, id: nat, c: Chunk,
                       chunkSize: nat)
    requires ImageFinds(files, ranges, id, c, chunkSize)
    ensures ImageFinds(files, ranges + more, id, c, chunkSize)
  {
    hide RangeFinds;
    var k :| 0 <= k < |ranges| && SegmentFinds(files, ranges, k, id, c, chunkSize);
    assert SegmentFinds(files, ranges + more, k, id, c, chunkSize);
  }

  lemma LaterIsFound(files: seq<Bytes>, ranges: seq<SegmentRange>, segment: nat, tables: seq<TableRange>, id: nat,
                     c: Chunk, chunkSize: nat)
    requires segment < |files| && Found(files[segment], tables, id, c, chunkSize)
    ensures ImageFinds(files, ranges + Tagged(segment, tables), id, c, chunkSize)
  {
    hide RangeFinds;
    var k :| 0 <= k < |tables| && RangeFinds(files[segment], tables[k], id, c, chunkSize);
    assert (ranges + Tagged(segment, tables))[|ranges| + k] == Tagged(segment, tables)[k];
    assert SegmentFinds(files, ranges + Tagged(segment, tables), |ranges| + k, id, c, chunkSize);
  }

  /** Opening written segments numbers all their chunks and finds each of them. */
  lemma {:induction false} SegmentsAreOpened(segments: seq<Segment>, n: nat, logicalSize: nat, chunkSize: nat,
                                             profile: Profile)
    requires n <= |segments| && AllWritten(segments, chunkSize, profile)
    ensures var tables := OpenTables(FilesOf(segments), n, logicalSize, profile);
            && tables.Ok?
            && tables.value.1 == |ChunksOf(segments, n)|
            && Partitions(tables.value.0, |ChunksOf(segments, n)|)
            && ImageFindsAll(FilesOf(segments), tables.value.0, ChunksOf(segments, n), chunkSize)
  {
    hide IsWritten, SegmentTables, Partitions, Contiguous, ImageFinds, AllFound;
    if n == 0 {
      NothingPartitions();
    } else {
      SegmentsAreOpened(segments, n - 1, logicalSize, chunkSize, profile);
      var before := OpenTables(FilesOf(segments), n - 1, logicalSize, profile).value;
      assert IsWritten(segments[n - 1], chunkSize, profile);
      WrittenHasChunks(segments[n - 1], chunkSize, profile);
      SegmentIsOpened(segments[n - 1], before.1, logicalSize, chunkSize, profile);
      var tables := SegmentTables(FilesOf(segments)[n - 1], before.1, logicalSize, profile).value;
      PartitionGrows(before.0, before.1, n - 1, tables, before.1 + |segments[n - 1].chunks|);
      FindingGrows(segments, n, before.0, tables, chunkSize);
    }
  }

  lemma WrittenHasChunks(s: Segment, chunkSize: nat, profile: Profile)
    requires IsWritten(s, chunkSize, profile)
    ensures s.chunks != []
  {}

  lemma NothingPartitions()
    ensures Partitions<(nat, TableRange)>([], 0)
  {}

  lemma FindingGrows(segments: seq<Segment>, n: nat, ranges: seq<SegmentRange>, tables: seq<TableRange>, chunkSize: nat)
    requires 0 < n <= |segments|
    requires ImageFindsAll(FilesOf(segments), ranges, ChunksOf(segments, n - 1), chunkSize)
    requires AllFound(segments[n - 1].file, tables, |ChunksOf(segments, n - 1)|, segments[n - 1].chunks, chunkSize)
    ensures ImageFindsAll(FilesOf(segments), ranges + Tagged(n - 1, tables), ChunksOf(segments, n), chunkSize)
  {
    hide ImageFinds, Found;
    var files, before, all := FilesOf(segments), ChunksOf(segments, n - 1), ChunksOf(segments, n);
    forall id | 0 <= id < |all| ensures ImageFinds(files, ranges + Tagged(n - 1, tables), id, all[id], chunkSize) {
      if id < |before| {
        EarlierIsFound(files, ranges, Tagged(n - 1, tables), id, all[id], chunkSize);
      } else {
        var c := id - |before|;
        assert Found(segments[n - 1].file, tables, |before| + c, segments[n - 1].chunks[c], chunkSize);
        LaterIsFound(files, ranges, n - 1, tables, id, all[id], chunkSize);
      }
    }
  }

  // ---------------------------------------------------------------- reading the media back

  function ToChunk(e: EncodedChunk): Chunk { Chunk(e.bytes, e.compressed) }

  /** A raw chunk that ends four bytes after its data is taken to end in their checksum. */
  predicate TrailerIsSafe(e: EncodedChunk, logical: nat) {
    !e.compressed && |e.bytes| == logical + 4 ==> TrailerAccepted(e.bytes, logical)
  }

  /** Chunk `id` of an image opened from written segments reads as the media chunk it encodes,
      exactly when its trailer is not mistaken for a wrong checksum. */
  lemma FoundChunkReads(lib: Library, file: Bytes, table: TableRange, id: nat, e: EncodedChunk, options: EncodeOptions,
                        data: Bytes,
                        chunkSize: nat, padded: bool)
    requires RangeFinds(file, table, id, ToChunk(e), chunkSize)
    requires !options.ewf2 && e.pattern.None? && Decodes(lib, e, options, data) && |data| <= chunkSize
    ensures ReadLocated(lib, file, table, id - table.firstChunk, chunkSize, |data|, padded)
            == if TrailerIsSafe(e, |data|) then Ok(data) else Err
  {
    hide Lookup, TrailerAccepted;
    var found := Lookup(file, table, id - table.firstChunk, chunkSize).value;
    assert ReadExact(file, found.offset, found.size) == Ok(e.bytes);
    assert found.encoding == EncodingOf(e, options);
    DecodingToleratesPadding(lib, e.bytes, found.encoding, |data|, chunkSize);
  }

  /** An emitted chunk is within the reader's EWF1 caps, except that a SMART reader takes no
      compressed chunk over twice the chunk size. */
  lemma EmittedIsWithinCaps(e: EncodedChunk, options: EncodeOptions, chunkSize: nat, profile: Profile)
    requires Emittable(e, options, chunkSize) && !options.ewf2 && profile.mediaMethod.MethodZlib?
            && DoubleCap(chunkSize).Ok?
    ensures e.pattern.None?
    ensures WithinCaps(ToChunk(e), chunkSize, profile) <==> FitsTwice(e, chunkSize, profile)
  {}

  predicate FitsTwice(e: EncodedChunk, chunkSize: nat, profile: Profile) {
    profile.allowLarge && e.compressed ==> |e.bytes| <= 2 * chunkSize
  }

  /** Chunks of 13 bytes or more always do. */
  lemma LargeChunksFitTwice(e: EncodedChunk, options: EncodeOptions, chunkSize: nat, profile: Profile)
    requires Emittable(e, options, chunkSize) && !options.ewf2 && chunkSize >= 13
    ensures FitsTwice(e, chunkSize, profile)
  {}

  /** A chunk the encoder itself makes is within those caps and never has a trailer that looks
      wrong. */
  lemma FreshChunkIsSafe(lib: Library, chunk: Bytes, options: EncodeOptions, chunkSize: nat, profile: Profile)
    requires OutputIsBounded(lib) && |chunk| <= chunkSize && CapsExist(chunkSize) && DoubleCap(chunkSize).Ok?
    requires !options.ewf2 && !options.compression.Bzipped? && profile.mediaMethod.MethodZlib?
    ensures var e := EncodeChunk(lib, chunk, options, chunkSize);
            && e.Ok? && e.value.pattern.None? && TrailerIsSafe(e.value, |chunk|)
            && (WithinCaps(ToChunk(e.value), chunkSize, profile) <==> FitsTwice(e.value, chunkSize, profile))
            && (chunkSize >= 13 ==> WithinCaps(ToChunk(e.value), chunkSize, profile))
  {
    RawDecodes(lib, chunk, options);
    FreshSizeIsAccepted(lib, chunk, options, chunkSize);
    hide Adler32, Decodes, TrailerAccepted, CapsExist, OutputIsBounded, SizeAccepted, EncodingOf, WithinCaps,
        FitsTwice, DoubleCap;
    var e := EncodeChunk(lib, chunk, options, chunkSize).value;
    EmittedIsWithinCaps(e, options, chunkSize, profile);
    if chunkSize >= 13 { LargeChunksFitTwice(e, options, chunkSize, profile); }
    if e == EncodeRaw(chunk) { FreshTrailer(chunk); }
  }

  lemma FreshTrailer(chunk: Bytes)
    ensures TrailerAccepted(EncodeRaw(chunk).bytes, |chunk|)
  {
    RawDecodes(Library((_, _, b) => b, (_, b) => Ok(b)), chunk,
               EncodeOptions(Uncompressed, DefaultLevel, false, false));
    hide Adler32;
  }

  const LATE_TRAILER: EncodedData := Given(RawData, 1, 5, false, [0, 9, 9, 9, 9])

  /** A caller's raw chunk without a checksum, four bytes longer than its data, is remembered as
      it is, although the reader would refuse it. */
  lemma LateTrailerIsRemembered(lib: Library, options: Options, chunkSize: nat, offset: nat)
    requires 0 < chunkSize < U31 && offset % chunkSize == 0
    ensures DecodeGiven(lib, LATE_TRAILER) == Ok([0])
    ensures var r := Remember(LATE_TRAILER, options, chunkSize, offset, 1);
            r.Some? && !TrailerIsSafe(r.value.encoded, 1)
  {
    assert LATE_TRAILER.data[..1] == [0] && LATE_TRAILER.data[1..5] == [9, 9, 9, 9];
    assert Adler32([0]) == 0x1_0001;
    assert FromLe([9, 9, 9, 9]) != 0x1_0001;
  }

  lemma DecodingToleratesPadding(lib: Library, encoded: Bytes, encoding: Encoding, logical: nat, maximum: nat)
    requires logical <= maximum && DecodeChunk(lib, encoded, encoding, logical, logical).Ok?
    ensures DecodeChunk(lib, encoded, encoding, logical, maximum)
            == DecodeChunk(lib, encoded, encoding, logical, logical)
  {}

  /** The segments hold the writer's encoded chunks, one for each chunk of its media. */
  ghost predicate HoldsMedia(segments: seq<Segment>, w: Writer, logical: nat, encoded: seq<EncodedChunk>,
                             profile: Profile) {
    && w.chunkSize > 0 && !w.options.IsEwf2()
    && AllWritten(segments, w.chunkSize, profile)
    && |encoded| == ChunkCount(logical, w.chunkSize).value
    && |ChunksOf(segments, |segments|)| == |encoded|
    && forall id | 0 <= id < |encoded| ::
         ChunksOf(segments, |segments|)[id] == ToChunk(encoded[id]) && encoded[id].pattern.None?
             && EncodesMedia(w, logical, id, encoded[id])
  }

  /** An image opened from `files`. */
  ghost predicate OpensAs(files: seq<Bytes>, logical: nat, chunkSize: nat, profile: Profile,
                          index: Index<(nat, TableRange)>) {
    && OpenTables(files, |files|, logical, profile).Ok?
    && ChunkCount(logical, chunkSize).Ok?
    && index == Index(ChunkCount(logical, chunkSize).value,
                      Sorted(OpenTables(files, |files|, logical, profile).value.0))
  }

  lemma OpenedIndexFinds(segments: seq<Segment>, w: Writer, logical: nat, encoded: seq<EncodedChunk>, profile: Profile,
                         index: Index<(nat, TableRange)>)
    requires HoldsMedia(segments, w, logical, encoded, profile)
            && OpensAs(FilesOf(segments), logical, w.chunkSize, profile, index)
    ensures Partitions(index.ranges, index.logicalChunks)
            && index.logicalChunks == |encoded| == |ChunksOf(segments, |segments|)|
    ensures ImageFindsAll(FilesOf(segments), index.ranges, ChunksOf(segments, |segments|), w.chunkSize)
  {
    hide AllWritten, ImageFindsAll, OpenTables, Partitions, EncodesMedia, Sorted;
    SegmentsAreOpened(segments, |segments|, logical, w.chunkSize, profile);
    var ranges := OpenTables(FilesOf(segments), |segments|, logical, profile).value.0;
    PartitionIsSorted(ranges, ranges, |encoded|);
  }

  /** Written segments open. */
  lemma WrittenSegmentsOpen(segments: seq<Segment>, w: Writer, logical: nat, encoded: seq<EncodedChunk>,
                            profile: Profile)
    requires HoldsMedia(segments, w, logical, encoded, profile)
    ensures exists index :: OpensAs(FilesOf(segments), logical, w.chunkSize, profile, index)
  {
    hide AllWritten, OpenTables, EncodesMedia, Sorted;
    SegmentsAreOpened(segments, |segments|, logical, w.chunkSize, profile);
    var ranges := OpenTables(FilesOf(segments), |segments|, logical, profile).value.0;
    assert OpensAs(FilesOf(segments), logical, w.chunkSize, profile,
                   Index(ChunkCount(logical, w.chunkSize).value, Sorted(ranges)));
  }

  /** Opening the segments gives an index, and through it every chunk of the media reads back,
      except one whose trailer would be mistaken for a wrong checksum. */
  lemma EveryChunkReadsBack(segments: seq<Segment>, w: Writer, logical: nat, encoded: seq<EncodedChunk>,
                            profile: Profile,
                            index: Index<(nat, TableRange)>, padded: bool, id: nat)
    requires HoldsMedia(segments, w, logical, encoded, profile)
            && OpensAs(FilesOf(segments), logical, w.chunkSize, profile, index)
    requires id < |encoded|
    ensures ReadChunk(w.lib, FilesOf(segments), index, logical, w.chunkSize, padded, id)
            == if TrailerIsSafe(encoded[id], |MediaChunk(w, logical, id)|) then Ok(MediaChunk(w, logical, id)) else Err
  {
    hide *;
    var files := FilesOf(segments);
    OpenedIndexFinds(segments, w, logical, encoded, profile, index);
    var k := FoundRange(files, index, ChunksOf(segments, |segments|), w.chunkSize, id);
    HeldChunk(segments, w, logical, encoded, profile, id);
    var range := index.ranges[k];
    FoundChunkReads(w.lib, files[range.table.0], range.table.1, id, encoded[id], w.options.Encode(),
                    MediaChunk(w, logical, id), w.chunkSize, padded);
    ReadChunkIs(w.lib, files, index, logical, w.chunkSize, padded, id, k);
  }

  lemma ReadChunkIs(lib: Library, files: seq<Bytes>, index: Index<(nat, TableRange)>, logical: nat, chunkSize: nat,
                    padded: bool, id: nat, k: nat)
    requires k < |index.ranges| && index.ranges[k].table.0 < |files| && index.ranges[k].first <= id
    requires RangeIndexFor(index, id) == Ok(k)
    ensures ReadChunk(lib, files, index, logical, chunkSize, padded, id)
            == ReadLocated(lib, files[index.ranges[k].table.0], index.ranges[k].table.1, id - index.ranges[k].first,
                           chunkSize,
                           MediaReads.LogicalChunkSize(logical, chunkSize, id), padded)
  {
    hide ReadLocated, RangeIndexFor, MediaReads.LogicalChunkSize;
  }

  lemma HeldChunk(segments: seq<Segment>, w: Writer, logical: nat, encoded: seq<EncodedChunk>, profile: Profile,
                  id: nat)
    requires HoldsMedia(segments, w, logical, encoded, profile) && id < |encoded|
    ensures id < |ChunksOf(segments, |segments|)| && ChunksOf(segments, |segments|)[id] == ToChunk(encoded[id])
    ensures encoded[id].pattern.None? && !w.options.Encode().ewf2
    ensures Decodes(w.lib, encoded[id], w.options.Encode(), MediaChunk(w, logical, id))
            && |MediaChunk(w, logical, id)| <= w.chunkSize
    ensures |MediaChunk(w, logical, id)| == MediaReads.LogicalChunkSize(logical, w.chunkSize, id)
  {
    hide AllWritten, ChunksOf, Decodes;
    assert EncodesMedia(w, logical, id, encoded[id]);
  }

  /** The range the search picks is the one that finds the chunk. */
  lemma FoundRange(files: seq<Bytes>, index: Index<(nat, TableRange)>, chunks: seq<Chunk>, chunkSize: nat,
                   id: nat) returns (k: nat)
    requires Partitions(index.ranges, index.logicalChunks) && index.logicalChunks == |chunks| && id < |chunks|
    requires ImageFindsAll(files, index.ranges, chunks, chunkSize)
    ensures k < |index.ranges| && RangeIndexFor(index, id) == Ok(k) && index.ranges[k].first <= id
    ensures index.ranges[k].table.0 < |files| && index.ranges[k].first == index.ranges[k].table.1.firstChunk
    ensures RangeFinds(files[index.ranges[k].table.0], index.ranges[k].table.1, id, chunks[id], chunkSize)
  {
    hide Partitions, RangeIndexFor, RangeFinds;
    assert ImageFinds(files, index.ranges, id, chunks[id], chunkSize);
    k :| 0 <= k < |index.ranges| && SegmentFinds(files, index.ranges, k, id, chunks[id], chunkSize);
    RangeFindsCovers(files[index.ranges[k].table.0], index.ranges[k].table.1, id, chunks[id], chunkSize);
    assert Covers(index.ranges[k], id);
    SearchFindsTheRange(index, id);
  }

  lemma RangeFindsCovers(file: Bytes, table: TableRange, id: nat, c: Chunk, chunkSize: nat)
    requires RangeFinds(file, table, id, c, chunkSize)
    ensures table.firstChunk <= id < table.firstChunk + table.chunkCount
  {}

  function Opened(w: Writer, segments: seq<Segment>, index: Index<(nat, TableRange)>, logical: nat,
                  padded: bool): MediaReads.Source {
    MediaReads.Source(logical, w.chunkSize,
                      id => ReadChunk(w.lib, FilesOf(segments), index, logical, w.chunkSize, padded, id))
  }

  /** Reading the written image at any offset gives that slice of the zero-filled spool. */
  lemma WrittenImageReadsBack(segments: seq<Segment>, w: Writer, logical: nat, encoded: seq<EncodedChunk>,
                              profile: Profile,
                              index: Index<(nat, TableRange)>, padded: bool, offset: nat, n: nat)
    requires HoldsMedia(segments, w, logical, encoded, profile)
            && OpensAs(FilesOf(segments), logical, w.chunkSize, profile, index)
    requires forall id | 0 <= id < |encoded| :: TrailerIsSafe(encoded[id], |MediaChunk(w, logical, id)|)
    requires offset + n <= logical
    ensures var image := Opened(w, segments, index, logical, padded);
            && MediaReads.Readable(image, offset, n)
            && MediaReads.MediaSlice(image, offset, n) == SpoolSlice(w.Spool(), 0, logical)[offset..offset + n]
  {
    hide HoldsMedia, OpensAs, ReadChunk, TrailerIsSafe, MediaChunk, SpoolSlice;
    var image := Opened(w, segments, index, logical, padded);
    HoldsOneChunkEach(segments, w, logical, encoded, profile);
    forall id | 0 <= id < |encoded| ensures image.read(id) == Ok(MediaChunk(w, logical, id)) {
      EveryChunkReadsBack(segments, w, logical, encoded, profile, index, padded, id);
    }
    SameMedia(image, w, logical, offset, n);
  }

  lemma HoldsOneChunkEach(segments: seq<Segment>, w: Writer, logical: nat, encoded: seq<EncodedChunk>, profile: Profile)
    requires HoldsMedia(segments, w, logical, encoded, profile)
    ensures w.chunkSize > 0 && |encoded| == ChunkCount(logical, w.chunkSize).value
  {}

  // ---------------------------------------------------------------- from the writer's chunks

  /** The segments hold these chunks, as the writer lays them out. */
  ghost predicate HoldsEmitted(segments: seq<Segment>, encoded: seq<EncodedChunk>) {
    && (forall m | 0 <= m < |segments| :: IsLaidOut(segments[m]))
    && |ChunksOf(segments, |segments|)| == |encoded|
    && forall id | 0 <= id < |encoded| :: ChunksOf(segments, |segments|)[id] == ToChunk(encoded[id])
  }

  ghost predicate IsLaidOut(s: Segment) { HoldsChunks(s.file, s.layout, s.chunks, s.groups) }

  lemma {:induction false} ChunkOfSegment(segments: seq<Segment>, n: nat, m: nat, c: nat)
    requires m < n <= |segments| && c < |segments[m].chunks|
    ensures segments[m].chunks[c] in ChunksOf(segments, n)
  {
    if m < n - 1 {
      ChunkOfSegment(segments, n - 1, m, c);
    } else {
      assert ChunksOf(segments, n)[|ChunksOf(segments, n - 1)| + c] == segments[m].chunks[c];
    }
  }

  /** What the writer emits, laid out in segments, is within the reader's caps. */
  lemma EmittedAreWritten(segments: seq<Segment>, w: Writer, logical: nat, encoded: seq<EncodedChunk>, profile: Profile)
    requires Emits(w, logical, encoded) && HoldsEmitted(segments, encoded) && !w.options.IsEwf2()
    requires profile.mediaMethod.MethodZlib? && DoubleCap(w.chunkSize).Ok?
    requires forall id | 0 <= id < |encoded| :: FitsTwice(encoded[id], w.chunkSize, profile)
    ensures HoldsMedia(segments, w, logical, encoded, profile)
  {
    hide HoldsChunks, EncodesMedia, Emittable, FitsTwice, WithinCaps, ChunksOf;
    var options, chunks := w.options.Encode(), ChunksOf(segments, |segments|);
    forall id | 0 <= id < |encoded| ensures encoded[id].pattern.None? && WithinCaps(chunks[id], w.chunkSize, profile) {
      EmittedIsWithinCaps(encoded[id], options, w.chunkSize, profile);
    }
    forall m | 0 <= m < |segments| ensures IsWritten(segments[m], w.chunkSize, profile) {
      assert IsLaidOut(segments[m]);
      forall c | 0 <= c < |segments[m].chunks| ensures WithinCaps(segments[m].chunks[c], w.chunkSize, profile) {
        ChunkOfSegment(segments, |segments|, m, c);
      }
    }
  }

  /** After any run of the writer, the segments it lays out read back as its zero-filled spool,
      at any offset, unless a caller's trailer or a SMART cap is in the way. */
  lemma EmittedImageReadsBack(segments: seq<Segment>, w: Writer, logical: nat, encoded: seq<EncodedChunk>,
                              profile: Profile,
                              index: Index<(nat, TableRange)>, padded: bool, offset: nat, n: nat)
    requires Emits(w, logical, encoded) && HoldsEmitted(segments, encoded) && !w.options.IsEwf2()
    requires profile.mediaMethod.MethodZlib? && DoubleCap(w.chunkSize).Ok?
    requires forall id | 0 <= id < |encoded| :: FitsTwice(encoded[id], w.chunkSize, profile)
    requires forall id | 0 <= id < |encoded| :: TrailerIsSafe(encoded[id], |MediaChunk(w, logical, id)|)
    requires OpensAs(FilesOf(segments), logical, w.chunkSize, profile, index) && offset + n <= logical
    ensures var image := Opened(w, segments, index, logical, padded);
            && MediaReads.Readable(image, offset, n)
            && MediaReads.MediaSlice(image, offset, n) == SpoolSlice(w.Spool(), 0, logical)[offset..offset + n]
  {
    EmittedAreWritten(segments, w, logical, encoded, profile);
    hide HoldsMedia, OpensAs, ReadChunk, TrailerIsSafe, MediaChunk, SpoolSlice, Emits, HoldsEmitted, FitsTwice;
    WrittenImageReadsBack(segments, w, logical, encoded, profile, index, padded, offset, n);
  }
}
