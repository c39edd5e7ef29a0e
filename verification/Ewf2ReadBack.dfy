/** Writing media as EWF2 segments and reading it back: what `ChunkWriter` encodes is found
    through the backward scan and the tables, and decodes to the media it came from. */
module Ewf2ReadBack {
  import opened Basics
  import opened ChunkCodec
  import opened ChunkIndex
  import opened ChunkWriter
  import opened Ewf2Sections
  import opened Ewf2Tables
  import MediaReads

  type SegmentRange = ChunkRange<(nat, TableRange)>

  // ---------------------------------------------------------------- reading

  function SegmentTables(file: Bytes, logicalSize: nat, rules: Rules): Result<seq<TableRange>> {
    var sections :- Scan(file, rules);
    var ranges :- ParseSections(file, sections, |sections|);
    if ranges == [] && logicalSize > 0 then Err else Ok(ranges)
  }

  function Tagged(segment: nat, tables: seq<TableRange>): (r: seq<SegmentRange>)
    ensures |r| == |tables|
  {
    seq(|tables|, k requires 0 <= k < |tables| =>
      ChunkRange(tables[k].firstChunk, tables[k].chunkCount, (segment, tables[k])))
  }

  function OpenTables(files: seq<Bytes>, n: nat, logicalSize: nat, rules: Rules): Result<seq<SegmentRange>>
    requires n <= |files|
  {
    if n == 0 then Ok([])
    else
      var before :- OpenTables(files, n - 1, logicalSize, rules);
      var tables :- SegmentTables(files[n - 1], logicalSize, rules);
      Ok(before + Tagged(n - 1, tables))
  }

  /** The compression method that a segment's file header names. */
  function SegmentMethodOf(file: Bytes): SegmentMethod {
    if |file| < 12 then MethodUnknown else MethodOf(FromLe(file[10..12]))
  }

  function ReadLocated(lib: Library, file: Bytes, found: Located, logical: nat): Result<Bytes> {
    var encoded :- (if found.encoding.PatternFill? then Ok([]) else ReadExact(file, found.offset, found.size));
    if found.validate && !TrailerAccepted(encoded, logical) then Err
    else DecodeChunk(lib, encoded, found.encoding, logical, logical)
  }

  function ReadChunk(lib: Library, files: seq<Bytes>, index: Index<(nat, TableRange)>, logicalSize: nat,
                     chunkSize: nat, id: nat): Result<Bytes> {
    var k :- RangeIndexFor(index, id);
    var range := index.ranges[k];
    if range.table.0 >= |files| || id < range.first then Err
    else
      var file := files[range.table.0];
      var found :- Lookup(file, range.table.1, SegmentMethodOf(file), id - range.first, chunkSize);
      ReadLocated(lib, file, found, MediaReads.LogicalChunkSize(logicalSize, chunkSize, id))
  }

  // ---------------------------------------------------------------- written segments

  datatype Segment = Segment(file: Bytes, pre: seq<Item>, post: seq<Item>, chunks: seq<EncodedChunk>, firstChunk: nat)
  {
    function SectorsOffset(): nat { DataOffset(pre, |pre|) }
    function Sectors(): Item { Item(SECTOR_DATA, PayloadTo(chunks, |chunks|)) }
    function Table(): Item { Item(SECTOR_TABLE, TableData(chunks, firstChunk, SectorsOffset())) }
    function Items(): seq<Item> { pre + [Sectors(), Table()] + post }
    function Range(): TableRange {
      TableRange(firstChunk, |chunks|, DataOffset(Items(), |pre| + 1) + Ewf2Tables.HEADER_SIZE)
    }
  }

  /** A chunk the table and the reader's size caps admit. */
  predicate Writable(e: EncodedChunk, options: EncodeOptions, chunkSize: nat) {
    Fits(e) && (e.pattern.Some? ==> e.compressed) && SizeAccepted(|e.bytes|, chunkSize, EncodingOf(e, options)).Ok?
  }

  /** An emitted chunk fits the table and the reader's caps when its size fits 32 bits, as it
      must for the table to be printed at all, and as it does up to 2 GiB. */
  lemma EmittedIsWritable(e: EncodedChunk, options: EncodeOptions, chunkSize: nat)
    requires Emittable(e, options, chunkSize) && options.ewf2
    ensures Writable(e, options, chunkSize) <==> |e.bytes| < U32
    ensures chunkSize <= U31 && (e.pattern.Some? ==> e.bytes == []) && !EncodingOf(e, options).ZstdData? ==>
            |e.bytes| < U32
  {}

  /** So does a chunk the encoder itself makes. */
  lemma FreshChunkIsWritable(lib: Library, chunk: Bytes, options: EncodeOptions, chunkSize: nat)
    requires OutputIsBounded(lib) && |chunk| <= chunkSize && CapsExist(chunkSize) && options.ewf2
    ensures var e := EncodeChunk(lib, chunk, options, chunkSize);
            e.Ok? ==> && (Writable(e.value, options, chunkSize) <==> |e.value.bytes| < U32)
                      && (chunkSize <= U31 ==> Writable(e.value, options, chunkSize))
  {
    FreshSizeIsAccepted(lib, chunk, options, chunkSize);
    var e := EncodeChunk(lib, chunk, options, chunkSize);
    if e.Ok? {
      EmittedIsWritable(e.value, options, chunkSize);
    }
    hide SizeAccepted, Adler32, OutputIsBounded, Writable, CapsExist;
  }

  /** The segment file holds the chunks between other sections, in the trailing layout. */
  ghost predicate IsLaidOut(s: Segment, options: EncodeOptions, rules: Rules) {
    && IsChainFile(s.file, s.Items()) && LeadingFrom(s.file, Ewf2Sections.FILE_HEADER_SIZE, false, rules).Declined?
    && SegmentMethodOf(s.file) == MethodOf(MethodCode(options.compression))
    && (forall i | 0 <= i < |s.pre| :: s.pre[i].kind != SECTOR_TABLE)
    && (forall i | 0 <= i < |s.post| :: s.post[i].kind != SECTOR_TABLE)
    && 0 < |s.chunks| < U32 && s.firstChunk < U64
  }

  ghost predicate IsWritten(s: Segment, options: EncodeOptions, chunkSize: nat, rules: Rules) {
    IsLaidOut(s, options, rules) && forall i | 0 <= i < |s.chunks| :: Writable(s.chunks[i], options, chunkSize)
  }

  lemma {:induction false} OffsetInPrefix(a: seq<Item>, b: seq<Item>, i: nat)
    requires i <= |a|
    ensures DataOffset(a + b, i) == DataOffset(a, i)
  {
    if i > 0 { OffsetInPrefix(a, b, i - 1); }
  }

  lemma ItemsAreThere(s: Segment)
    ensures var items, n := s.Items(), |s.pre|;
            && |items| == n + 2 + |s.post| && items[n] == s.Sectors() && items[n + 1] == s.Table()
            && DataOffset(items, n) == s.SectorsOffset()
    ensures forall i | 0 <= i < |s.Items()| && i != |s.pre| + 1 ::
              s.Items()[i].kind == (if i < |s.pre| then s.pre[i].kind else if i == |s.pre| then SECTOR_DATA
                                    else s.post[i - |s.pre| - 2].kind)
  {
    hide PayloadTo, TableData, DataOffset;
    assert s.Items() == s.pre + ([s.Sectors(), s.Table()] + s.post);
    OffsetInPrefix(s.pre, [s.Sectors(), s.Table()] + s.post, |s.pre|);
  }

  /** The two sections that matter are in the file where the plan puts them. */
  lemma ChunksAreHeld(s: Segment, options: EncodeOptions, chunkSize: nat, rules: Rules)
    requires IsWritten(s, options, chunkSize, rules)
    ensures HoldsAt(s.file, s.SectorsOffset(), PayloadTo(s.chunks, |s.chunks|))
    ensures |s.pre| + 1 < |s.Items()|
            && HoldsAt(s.file, DataOffset(s.Items(), |s.pre| + 1), TableData(s.chunks, s.firstChunk, s.SectorsOffset()))
    ensures |s.file| < U64
  {
    hide PayloadTo, TableData, DataOffset, ChainBytes, LeadingFrom, HoldsAt, DescriptorBytes;
    ItemsAreThere(s);
    ChainIsHeld(s.file, s.Items());
    SectionsAreHeld(s.file, s.Items(), |s.Items()|, |s.pre|);
    SectionsAreHeld(s.file, s.Items(), |s.Items()|, |s.pre| + 1);
  }

  /** Parsing the sections of a written segment up to `n` finds its table once it is reached. */
  lemma {:induction false} SectionsAreParsed(s: Segment, options: EncodeOptions, chunkSize: nat, rules: Rules, n: nat)
    requires IsWritten(s, options, chunkSize, rules) && n <= |s.Items()|
    ensures ParseSections(s.file, PlacedSections(s.Items(), |s.Items()|), n)
            == Ok(if n <= |s.pre| + 1 then [] else [s.Range()])
  {
    hide PayloadTo, TableData, DataOffset, IsWritten, HoldsAt, ParseSection, Entries, PreviousOffset;
    if n > 0 {
      SectionsAreParsed(s, options, chunkSize, rules, n - 1);
      ItemsAreThere(s);
      var section := PlacedSections(s.Items(), |s.Items()|)[n - 1];
      if n == |s.pre| + 2 {
        ChunksAreHeld(s, options, chunkSize, rules);
        CountsFitTable(s, options, chunkSize, rules);
        TableRoundTrip(s.file, section, s.chunks, s.firstChunk, s.SectorsOffset());
        assert [] + [s.Range()] == [s.Range()];
      } else {
        OthersAreNoTables(s, options, chunkSize, rules, n - 1);
        NoTableNoRange(s.file, section);
      }
    }
  }

  lemma CountsFitTable(s: Segment, options: EncodeOptions, chunkSize: nat, rules: Rules)
    requires IsWritten(s, options, chunkSize, rules)
    ensures 0 < |s.chunks| < U32 && s.firstChunk < U64
  {}

  lemma OthersAreNoTables(s: Segment, options: EncodeOptions, chunkSize: nat, rules: Rules, i: nat)
    requires IsWritten(s, options, chunkSize, rules) && i < |s.Items()| && i != |s.pre| + 1
    ensures s.Items()[i].kind != SECTOR_TABLE
  {
    hide IsChainFile, LeadingFrom;
    ItemsAreThere(s);
  }

  lemma NoTableNoRange(file: Bytes, s: Section)
    requires s.kind != SECTOR_TABLE
    ensures ParseSection(file, s) == Ok(None)
  {}

  /** Opening a written segment yields its one range. */
  lemma SegmentIsOpened(s: Segment, options: EncodeOptions, chunkSize: nat, rules: Rules, logicalSize: nat)
    requires IsWritten(s, options, chunkSize, rules)
    ensures SegmentTables(s.file, logicalSize, rules) == Ok([s.Range()])
  {
    hide ParseSections, Scan, IsChainFile, LeadingFrom, PlacedSections, Segment.Range, Segment.Items;
    WrittenFileIsScanned(s.file, s.Items(), rules);
    ItemsAreThere(s);
    SectionsAreParsed(s, options, chunkSize, rules, |s.Items()|);
  }

  /** Looking up and reading chunk `i` of a written segment gives back what it encodes. */
  lemma WrittenChunkReads(s: Segment, lib: Library, options: EncodeOptions, chunkSize: nat, rules: Rules, i: nat,
                          data: Bytes)
    requires IsWritten(s, options, chunkSize, rules) && i < |s.chunks| && options.ewf2
    requires Decodes(lib, s.chunks[i], options, data)
    ensures var found := Lookup(s.file, s.Range(), SegmentMethodOf(s.file), i, chunkSize);
            found.Ok? && ReadLocated(lib, s.file, found.value, |data|) == Ok(data)
  {
    hide IsWritten, Lookup, ReadLocated, PayloadTo, TableData, HoldsAt, Entries, Writable, Decodes, SegmentMethodOf,
        Segment.Items;
    ChunksAreHeld(s, options, chunkSize, rules);
    TableHoldsEntries(s);
    WrittenChunkFits(s, options, chunkSize, rules, i);
    Ewf2Tables.ChunkIsHeld(s.file, s.SectorsOffset(), s.chunks, |s.chunks|, i);
    EndsInFile(s.file, s.chunks, s.SectorsOffset(), i);
    EntryRoundTrip(s.file, s.Range(), s.chunks, s.SectorsOffset(), i, options, chunkSize);
    LocatedReads(lib, s.file, s.chunks, s.SectorsOffset(), i, options, data);
  }

  lemma TableHoldsEntries(s: Segment)
    requires |s.pre| + 1 < |s.Items()|
            && HoldsAt(s.file, DataOffset(s.Items(), |s.pre| + 1), TableData(s.chunks, s.firstChunk, s.SectorsOffset()))
    ensures HoldsAt(s.file, s.Range().entriesOffset, Entries(s.chunks, s.SectorsOffset(), |s.chunks|))
  {
    hide HoldsAt, Entries, Ewf2Tables.HeaderBytes, FooterBytes, DataOffset, Segment.Items;
    var entries := Entries(s.chunks, s.SectorsOffset(), |s.chunks|);
    SplitThree(s.file, DataOffset(s.Items(), |s.pre| + 1), Ewf2Tables.HeaderBytes(s.firstChunk, |s.chunks|), entries,
               FooterBytes(entries));
  }

  lemma WrittenChunkFits(s: Segment, options: EncodeOptions, chunkSize: nat, rules: Rules, i: nat)
    requires IsWritten(s, options, chunkSize, rules) && i < |s.chunks|
    ensures Fits(s.chunks[i]) && (s.chunks[i].pattern.Some? ==> s.chunks[i].compressed)
    ensures SizeAccepted(|s.chunks[i].bytes|, chunkSize, EncodingOf(s.chunks[i], options)).Ok?
    ensures SegmentMethodOf(s.file) == MethodOf(MethodCode(options.compression))
  {
    hide IsChainFile, LeadingFrom;
    assert Writable(s.chunks[i], options, chunkSize);
  }

  lemma EndsInFile(file: Bytes, chunks: seq<EncodedChunk>, start: nat, i: nat)
    requires i < |chunks| && HoldsAt(file, ChunkOffset(chunks, start, i), chunks[i].bytes) && |file| < U64
    ensures ChunkOffset(chunks, start, i) < U64
  {}

  lemma LocatedReads(lib: Library, file: Bytes, chunks: seq<EncodedChunk>, start: nat, i: nat, options: EncodeOptions,
                     data: Bytes)
    requires i < |chunks| && HoldsAt(file, ChunkOffset(chunks, start, i), chunks[i].bytes)
    requires Decodes(lib, chunks[i], options, data)
    ensures var encoding := EncodingOf(chunks[i], options);
            var found := Located(EntryValue(chunks, start, i), |chunks[i].bytes|, encoding,
                                 encoding.RawData? && chunks[i].hasChecksum);
            ReadLocated(lib, file, found, |data|) == Ok(data)
  {
    hide ChunkOffset, TrailerAccepted;
    assert ReadExact(file, ChunkOffset(chunks, start, i), |chunks[i].bytes|) == Ok(chunks[i].bytes);
  }

  // ---------------------------------------------------------------- several segments

  function FirstOf(segments: seq<Segment>, n: nat): nat
    requires n <= |segments|
  {
    if n == 0 then 0 else FirstOf(segments, n - 1) + |segments[n - 1].chunks|
  }

  /** Each segment's table says where its chunks start. */
  ghost predicate AllWritten(segments: seq<Segment>, options: EncodeOptions, chunkSize: nat, rules: Rules) {
    forall m | 0 <= m < |segments| :: IsWritten(segments[m], options, chunkSize, rules)
        && segments[m].firstChunk == FirstOf(segments, m)
  }

  function FilesOf(segments: seq<Segment>): (files: seq<Bytes>)
    ensures |files| == |segments| && forall m | 0 <= m < |files| :: files[m] == segments[m].file
  {
    seq(|segments|, m requires 0 <= m < |segments| => segments[m].file)
  }

  function RangesOf(segments: seq<Segment>, n: nat): (r: seq<SegmentRange>)
    requires n <= |segments|
    ensures |r| == n && forall m | 0 <= m < n ::
            r[m] == ChunkRange(segments[m].firstChunk, |segments[m].chunks|, (m, segments[m].Range()))
  {
    seq(n, m requires 0 <= m < n => ChunkRange(segments[m].firstChunk, |segments[m].chunks|, (m, segments[m].Range())))
  }

  lemma {:induction false} SegmentsAreOpened(segments: seq<Segment>, n: nat, options: EncodeOptions, chunkSize: nat,
                                             rules: Rules, logicalSize: nat)
    requires n <= |segments| && AllWritten(segments, options, chunkSize, rules)
    ensures OpenTables(FilesOf(segments), n, logicalSize, rules) == Ok(RangesOf(segments, n))
  {
    hide IsWritten, SegmentTables, Segment.Items, DataOffset, FirstOf;
    if n > 0 {
      SegmentsAreOpened(segments, n - 1, options, chunkSize, rules, logicalSize);
      assert IsWritten(segments[n - 1], options, chunkSize, rules);
      SegmentIsOpened(segments[n - 1], options, chunkSize, rules, logicalSize);
      assert RangesOf(segments, n) == RangesOf(segments, n - 1) + Tagged(n - 1, [segments[n - 1].Range()]);
    }
  }

  lemma RangesPartition(segments: seq<Segment>, options: EncodeOptions, chunkSize: nat, rules: Rules)
    requires AllWritten(segments, options, chunkSize, rules)
    ensures Partitions(RangesOf(segments, |segments|), FirstOf(segments, |segments|))
  {
    hide IsWritten, Segment.Range;
    var ranges := RangesOf(segments, |segments|);
    forall k | 0 <= k < |ranges| ensures Follows(ranges, k) {
      CountsFitTable(segments[k], options, chunkSize, rules);
    }
  }

  /** The segments hold the writer's encoded chunks, one for each chunk of its media. */
  ghost predicate HoldsMedia(segments: seq<Segment>, w: Writer, logical: nat, rules: Rules) {
    && w.chunkSize > 0 && w.options.IsEwf2()
    && AllWritten(segments, w.options.Encode(), w.chunkSize, rules)
    && FirstOf(segments, |segments|) == ChunkCount(logical, w.chunkSize).value
    && forall m, i | 0 <= m < |segments| && 0 <= i < |segments[m].chunks| ::
         EncodesMedia(w, logical, segments[m].firstChunk + i, segments[m].chunks[i])
  }

  /** The index that opening `files` gives. */
  ghost predicate OpensAs(files: seq<Bytes>, logical: nat, chunkSize: nat, rules: Rules,
                          index: Index<(nat, TableRange)>) {
    && OpenTables(files, |files|, logical, rules).Ok?
    && ChunkCount(logical, chunkSize).Ok?
    && index == Index(ChunkCount(logical, chunkSize).value, Sorted(OpenTables(files, |files|, logical, rules).value))
  }

  lemma OpenedIndex(segments: seq<Segment>, w: Writer, logical: nat, rules: Rules, index: Index<(nat, TableRange)>)
    requires HoldsMedia(segments, w, logical, rules) && OpensAs(FilesOf(segments), logical, w.chunkSize, rules, index)
    ensures index == Index(ChunkCount(logical, w.chunkSize).value, RangesOf(segments, |segments|))
    ensures Partitions(index.ranges, index.logicalChunks)
  {
    hide AllWritten, OpenTables, EncodesMedia, Sorted, Partitions, RangesOf;
    SegmentsAreOpened(segments, |segments|, w.options.Encode(), w.chunkSize, rules, logical);
    RangesPartition(segments, w.options.Encode(), w.chunkSize, rules);
    PartitionIsSorted(RangesOf(segments, |segments|), RangesOf(segments, |segments|), FirstOf(segments, |segments|));
  }

  /** Written segments open. */
  lemma WrittenSegmentsOpen(segments: seq<Segment>, w: Writer, logical: nat, rules: Rules)
    requires HoldsMedia(segments, w, logical, rules)
    ensures exists index :: OpensAs(FilesOf(segments), logical, w.chunkSize, rules, index)
  {
    hide AllWritten, OpenTables, EncodesMedia, Sorted, RangesOf;
    SegmentsAreOpened(segments, |segments|, w.options.Encode(), w.chunkSize, rules, logical);
    var ranges := OpenTables(FilesOf(segments), |segments|, logical, rules).value;
    assert OpensAs(FilesOf(segments), logical, w.chunkSize, rules,
                   Index(ChunkCount(logical, w.chunkSize).value, Sorted(ranges)));
  }

  /** Every chunk of the media, pattern-filled ones included, reads back. */
  lemma EveryChunkReadsBack(segments: seq<Segment>, w: Writer, logical: nat, rules: Rules,
                            index: Index<(nat, TableRange)>, id: nat)
    requires HoldsMedia(segments, w, logical, rules) && OpensAs(FilesOf(segments), logical, w.chunkSize, rules, index)
    requires id < ChunkCount(logical, w.chunkSize).value
    ensures ReadChunk(w.lib, FilesOf(segments), index, logical, w.chunkSize, id) == Ok(MediaChunk(w, logical, id))
  {
    hide HoldsMedia, OpensAs, Partitions, RangeIndexFor, MediaChunk, Lookup, ReadLocated, Segment.Range,
        SegmentMethodOf;
    OpenedIndex(segments, w, logical, rules, index);
    SearchFindsTheRange(index, id);
    var k := RangeIndexFor(index, id).value;
    var i := id - segments[k].firstChunk;
    HeldChunk(segments, w, logical, rules, k, i);
    WrittenChunkReads(segments[k], w.lib, w.options.Encode(), w.chunkSize, rules, i, MediaChunk(w, logical, id));
  }

  lemma HeldChunk(segments: seq<Segment>, w: Writer, logical: nat, rules: Rules, k: nat, i: nat)
    requires HoldsMedia(segments, w, logical, rules) && k < |segments| && i < |segments[k].chunks|
    ensures IsWritten(segments[k], w.options.Encode(), w.chunkSize, rules) && w.options.Encode().ewf2
    ensures var data := MediaChunk(w, logical, segments[k].firstChunk + i);
            && Decodes(w.lib, segments[k].chunks[i], w.options.Encode(), data)
            && |data| == MediaReads.LogicalChunkSize(logical, w.chunkSize, segments[k].firstChunk + i)
  {
    hide IsWritten, Decodes, FirstOf;
    assert EncodesMedia(w, logical, segments[k].firstChunk + i, segments[k].chunks[i]);
  }

  function Opened(w: Writer, segments: seq<Segment>, index: Index<(nat, TableRange)>, logical: nat): MediaReads.Source {
    MediaReads.Source(logical, w.chunkSize, id => ReadChunk(w.lib, FilesOf(segments), index, logical, w.chunkSize, id))
  }

  /** Reading the written image at any offset gives that slice of the zero-filled spool. */
  lemma WrittenImageReadsBack(segments: seq<Segment>, w: Writer, logical: nat, rules: Rules,
                              index: Index<(nat, TableRange)>, offset: nat, n: nat)
    requires HoldsMedia(segments, w, logical, rules) && OpensAs(FilesOf(segments), logical, w.chunkSize, rules, index)
    requires offset + n <= logical
    ensures var image := Opened(w, segments, index, logical);
            && MediaReads.Readable(image, offset, n)
            && MediaReads.MediaSlice(image, offset, n) == SpoolSlice(w.Spool(), 0, logical)[offset..offset + n]
  {
    hide HoldsMedia, OpensAs, ReadChunk, MediaChunk, SpoolSlice;
    var image := Opened(w, segments, index, logical);
    ChunksArePositive(segments, w, logical, rules);
    forall id | 0 <= id < ChunkCount(logical, w.chunkSize).value
      ensures image.read(id) == Ok(MediaChunk(w, logical, id))
    {
      EveryChunkReadsBack(segments, w, logical, rules, index, id);
    }
    SameMedia(image, w, logical, offset, n);
  }

  lemma ChunksArePositive(segments: seq<Segment>, w: Writer, logical: nat, rules: Rules)
    requires HoldsMedia(segments, w, logical, rules)
    ensures w.chunkSize > 0
  {}

  // ---------------------------------------------------------------- from the writer's chunks

  /** The segments hold these chunks, whose sizes the printed tables can say. */
  ghost predicate HoldsEmitted(segments: seq<Segment>, encoded: seq<EncodedChunk>, options: EncodeOptions,
                               rules: Rules) {
    && (forall m | 0 <= m < |segments| ::
          IsLaidOut(segments[m], options, rules) && segments[m].firstChunk == FirstOf(segments, m))
    && FirstOf(segments, |segments|) == |encoded|
    && forall m, i | 0 <= m < |segments| && 0 <= i < |segments[m].chunks| :: HoldsAs(segments[m], i, encoded)
  }

  predicate HoldsAs(s: Segment, i: nat, encoded: seq<EncodedChunk>)
    requires i < |s.chunks|
  {
    s.firstChunk + i < |encoded| && s.chunks[i] == encoded[s.firstChunk + i] && |s.chunks[i].bytes| < U32
  }

  /** What the writer emits, laid out in segments, is within the table and the reader's caps. */
  lemma EmittedAreWritten(segments: seq<Segment>, w: Writer, logical: nat, encoded: seq<EncodedChunk>, rules: Rules)
    requires Emits(w, logical, encoded) && w.options.IsEwf2()
            && HoldsEmitted(segments, encoded, w.options.Encode(), rules)
    ensures HoldsMedia(segments, w, logical, rules)
  {
    hide IsChainFile, LeadingFrom, Segment.Items, SegmentMethodOf, EncodesMedia, Emittable, Writable, FirstOf;
    var options := w.options.Encode();
    forall m, i | 0 <= m < |segments| && 0 <= i < |segments[m].chunks|
      ensures EncodesMedia(w, logical, segments[m].firstChunk + i, segments[m].chunks[i])
      ensures Writable(segments[m].chunks[i], options, w.chunkSize)
    {
      assert HoldsAs(segments[m], i, encoded);
      EmittedIsWritable(segments[m].chunks[i], options, w.chunkSize);
    }
    forall m | 0 <= m < |segments| ensures IsWritten(segments[m], options, w.chunkSize, rules) {
      assert IsLaidOut(segments[m], options, rules);
    }
  }

  /** After any run of the writer, the segments it lays out read back as its zero-filled spool,
      at any offset. */
  lemma EmittedImageReadsBack(segments: seq<Segment>, w: Writer, logical: nat, encoded: seq<EncodedChunk>, rules: Rules,
                              index: Index<(nat, TableRange)>, offset: nat, n: nat)
    requires Emits(w, logical, encoded) && w.options.IsEwf2()
            && HoldsEmitted(segments, encoded, w.options.Encode(), rules)
    requires OpensAs(FilesOf(segments), logical, w.chunkSize, rules, index) && offset + n <= logical
    ensures var image := Opened(w, segments, index, logical);
            && MediaReads.Readable(image, offset, n)
            && MediaReads.MediaSlice(image, offset, n) == SpoolSlice(w.Spool(), 0, logical)[offset..offset + n]
  {
    EmittedAreWritten(segments, w, logical, encoded, rules);
    hide HoldsMedia, OpensAs, ReadChunk, MediaChunk, SpoolSlice, Emits, HoldsEmitted;
    WrittenImageReadsBack(segments, w, logical, rules, index, offset, n);
  }
}
