/** A whole EWF1 segment: from the chunks the writer groups to the places the reader finds. */
module Ewf1Image {
  import opened Basics
  import opened ChunkCodec
  import opened Ewf1Sections
  import opened Ewf1Tables
  import opened Ewf1RoundTrip
  import opened Ewf1Groups

  /** The sections before the tables, the table groups, and the sections after them. */
  datatype Layout = Layout(pre: seq<Plan>, groups: seq<seq<Chunk>>, post: seq<Plan>, footer: bool, mirror: bool)
  {
    function Plans(): seq<Plan> { SegmentPlans(pre, groups, post, footer, mirror) }
  }

  predicate EndsSegment(p: Plan) { p.Plain? && IsTerminal(p.item.kind) }

  predicate IsSidePlan(p: Plan) {
    p.Plain? && IsKind(p.item.kind) && !IsTablePlan(p)
  }

  /** Only the last section ends the segment, and no section outside the groups is a table. */
  ghost predicate IsLayout(l: Layout) {
    && l.post != []
    && (forall i | 0 <= i < |l.pre| :: IsSidePlan(l.pre[i]) && !EndsSegment(l.pre[i]))
    && (forall i | 0 <= i < |l.post| :: IsSidePlan(l.post[i]) && (EndsSegment(l.post[i]) <==> i == |l.post| - 1))
  }

  /** The bytes of the segment file: its header and its section chain. */
  ghost predicate IsSegmentFile(file: Bytes, l: Layout) {
    && IsLayout(l)
    && |file| < U64
    && FILE_HEADER_SIZE <= |file|
    && Printable(Rendered(l.Plans()))
    && file[FILE_HEADER_SIZE..] == ChainBytes(Rendered(l.Plans()), FILE_HEADER_SIZE)
  }

  // ---------------------------------------------------------------- the chain

  ghost predicate IsPlanChain(plans: seq<Plan>) {
    && plans != []
    && forall i | 0 <= i < |plans| :: IsKind(plans[i].Render().kind) && (EndsSegment(plans[i]) <==> i == |plans| - 1)
  }

  lemma ChainGrows(a: seq<Plan>, b: seq<Plan>)
    requires IsPlanChain(b)
    requires forall i | 0 <= i < |a| :: IsKind(a[i].Render().kind) && !EndsSegment(a[i])
    ensures IsPlanChain(a + b)
  {
    forall i | 0 <= i < |a + b|
      ensures IsKind((a + b)[i].Render().kind) && (EndsSegment((a + b)[i]) <==> i == |a + b| - 1)
    {
      if i >= |a| { assert (a + b)[i] == b[i - |a|]; }
    }
  }

  lemma {:induction false} BodyIsChain(groups: seq<seq<Chunk>>, post: seq<Plan>, start: nat, footer: bool, mirror: bool)
    requires IsPlanChain(post)
    ensures IsPlanChain(BodyPlans(groups, post, start, footer, mirror))
    decreases |groups|
  {
    if groups != [] {
      var rest := start + GroupSize(groups[0], footer, mirror);
      BodyIsChain(groups[1..], post, rest, footer, mirror);
      ChainGrows(GroupPlans(groups[0], start, footer, mirror), BodyPlans(groups[1..], post, rest, footer, mirror));
    }
  }

  lemma LayoutIsChain(l: Layout)
    requires IsLayout(l)
    ensures Printable(Rendered(l.Plans())) && IsChain(Rendered(l.Plans()))
  {
    BodyIsChain(l.groups, l.post, PlanOffset(l.pre, |l.pre|), l.footer, l.mirror);
    ChainGrows(l.pre, BodyPlans(l.groups, l.post, PlanOffset(l.pre, |l.pre|), l.footer, l.mirror));
    ChainIsRendered(l.Plans());
  }

  lemma ChainIsRendered(plans: seq<Plan>)
    requires IsPlanChain(plans)
    ensures Printable(Rendered(plans)) && IsChain(Rendered(plans))
  {
    hide Payload, TableData, IsKind;
    forall i | 0 <= i < |plans| ensures IsTerminal(plans[i].Render().kind) <==> EndsSegment(plans[i]) {
      assert SECTORS[0] != DONE[0] && SECTORS[0] != NEXT[0] && TABLE[0] != DONE[0] && TABLE[0] != NEXT[0]
          && TABLE2[0] != DONE[0];
    }
  }

  lemma SegmentIsWritten(file: Bytes, l: Layout)
    requires IsSegmentFile(file, l)
    ensures Written(file, l.Plans())
    ensures ScanFrom(file, FILE_HEADER_SIZE) == Ok(Scanned(l.Plans()))
  {
    hide *;
    LayoutIsChain2(file, l);
    ChainHoldsPayloads(file, Rendered(l.Plans()));
    ScanOfChain(file, Rendered(l.Plans()), FILE_HEADER_SIZE);
    ScannedIsPlaced(file, l.Plans());
  }

  lemma LayoutIsChain2(file: Bytes, l: Layout)
    requires IsSegmentFile(file, l)
    ensures HoldsChain(file, Rendered(l.Plans()), FILE_HEADER_SIZE) && IsChain(Rendered(l.Plans()))
  {
    hide ChainBytes, Rendered;
    LayoutIsChain(l);
    var chain := ChainBytes(Rendered(l.Plans()), FILE_HEADER_SIZE);
    assert file[FILE_HEADER_SIZE..FILE_HEADER_SIZE + |chain|] == chain;
  }

  lemma ScannedIsPlaced(file: Bytes, plans: seq<Plan>)
    ensures Scanned(plans) == PlacedSections(Rendered(plans), FILE_HEADER_SIZE)
    ensures Written(file, plans) <==> PayloadsHeld(file, Rendered(plans))
  {}

  // ---------------------------------------------------------------- ranges

  lemma {:induction false} TablesAreAhead(file: Bytes, sections: seq<Section>, i: nat, j: nat, profile: Profile,
                                          state: ParseState)
    requires i <= j <= |sections| && forall m | i <= m < j :: !IsTable(sections[m].kind)
    ensures ParseSections(file, sections, i, |sections|, profile, state)
            == ParseSections(file, sections, j, |sections|, profile, state)
    decreases j - i
  {
    if i < j { TablesAreAhead(file, sections, i + 1, j, profile, state); }
  }

  lemma PreHasNoTables(l: Layout)
    requires IsLayout(l)
    ensures |l.pre| <= |Scanned(l.Plans())| == |l.Plans()|
    ensures forall m | 0 <= m < |l.pre| :: !IsTable(Scanned(l.Plans())[m].kind)
  {
    forall m | 0 <= m < |l.pre| ensures !IsTable(Scanned(l.Plans())[m].kind) {
      PlansArePlaced(l.Plans(), m);
      assert l.Plans()[m] == l.pre[m];
    }
  }

  function SegmentRanges(l: Layout, firstChunk: nat, profile: Profile): seq<TableRange>
    requires |l.pre| + |l.groups| * Stride(l.mirror) <= |l.Plans()|
  {
    RangesOf(l.Plans(), |l.pre|, l.groups, l.mirror, firstChunk, profile)
  }

  lemma LayoutIsLaid(l: Layout)
    requires IsLayout(l)
    ensures |l.pre| + |l.groups| * Stride(l.mirror) <= |l.Plans()|
    ensures Laid(l.Plans(), |l.pre|, l.groups, l.footer, l.mirror)
  {
    BodyIsLaid(l.pre, l.groups, l.post, l.footer, l.mirror);
    LaidFits(l.Plans(), |l.pre|, l.groups, l.footer, l.mirror);
  }

  ghost predicate GroupsFit(groups: seq<seq<Chunk>>) {
    forall g | 0 <= g < |groups| :: GroupFits(groups[g])
  }

  /** Scanning a written segment and parsing its tables yields the ranges of its groups. */
  lemma SegmentIsParsed(file: Bytes, l: Layout, firstChunk: nat, profile: Profile)
    requires IsSegmentFile(file, l) && GroupsFit(l.groups)
    ensures |l.pre| + |l.groups| * Stride(l.mirror) <= |l.Plans()|
    ensures ScanFrom(file, FILE_HEADER_SIZE).Ok?
    ensures var sections := ScanFrom(file, FILE_HEADER_SIZE).value;
            var parsed := ParseSections(file, sections, 0, |sections|, profile, ParseState([], firstChunk, NoTable));
            parsed.Ok? && parsed.value.ranges == SegmentRanges(l, firstChunk, profile)
  {
    hide Layout.Plans, Scanned, Written, ParseSections, RangesOf, Laid;
    SegmentIsWritten(file, l);
    LayoutIsLaid(l);
    PreHasNoTables(l);
    TablesAreAhead(file, Scanned(l.Plans()), 0, |l.pre|, profile, ParseState([], firstChunk, NoTable));
    GroupsAreParsed(file, l.Plans(), |l.pre|, l.groups, l.footer, l.mirror, profile,
                    ParseState([], firstChunk, NoTable));
  }

  // ---------------------------------------------------------------- every chunk is found

  function ChunksBefore(groups: seq<seq<Chunk>>, g: nat): nat
    requires g <= |groups|
  {
    if g == 0 then 0 else ChunksBefore(groups, g - 1) + |groups[g - 1]|
  }

  lemma {:induction false} ChunksBeforeOfTail(groups: seq<seq<Chunk>>, g: nat)
    requires 0 < g <= |groups|
    ensures ChunksBefore(groups, g) == |groups[0]| + ChunksBefore(groups[1..], g - 1)
  {
    if g > 1 { ChunksBeforeOfTail(groups, g - 1); }
  }

  /** The chunk that range `k` has to start with: the one after the range before it. */
  function NextChunk(ranges: seq<TableRange>, k: nat, first: nat): nat
    requires k <= |ranges|
  {
    if k == 0 then first else ranges[k - 1].firstChunk + ranges[k - 1].chunkCount
  }

  predicate InPlace(ranges: seq<TableRange>, k: nat, first: nat)
    requires k < |ranges|
  {
    ranges[k].chunkCount > 0 && ranges[k].firstChunk == NextChunk(ranges, k, first)
  }

  /** Ranges that number chunks from `first` to `end` without gap or overlap. */
  ghost predicate Contiguous(ranges: seq<TableRange>, first: nat, end: nat) {
    && (forall k | 0 <= k < |ranges| :: InPlace(ranges, k, first))
    && end == NextChunk(ranges, |ranges|, first)
  }

  lemma ContiguousJoins(a: seq<TableRange>, b: seq<TableRange>, first: nat, middle: nat, end: nat)
    requires Contiguous(a, first, middle) && Contiguous(b, middle, end)
    ensures Contiguous(a + b, first, end)
  {
    var ranges := a + b;
    forall k | 0 <= k < |ranges| ensures InPlace(ranges, k, first) {
      if k < |a| {
        assert InPlace(a, k, first);
      } else {
        assert InPlace(b, k - |a|, middle);
        assert ranges[k] == b[k - |a|] && (k > |a| ==> ranges[k - 1] == b[k - 1 - |a|]);
      }
    }
    assert b != [] ==> ranges[|ranges| - 1] == b[|b| - 1];
  }

  lemma {:induction false} RangesAreContiguous(plans: seq<Plan>, i: nat, groups: seq<seq<Chunk>>, mirror: bool,
                                               firstChunk: nat, profile: Profile)
    requires i + |groups| * Stride(mirror) <= |plans|
    ensures Contiguous(RangesOf(plans, i, groups, mirror, firstChunk, profile), firstChunk,
                       firstChunk + ChunksBefore(groups, |groups|))
    decreases |groups|
  {
    hide Contiguous, RangeOf, PlanOffset;
    if groups == [] {
      NothingIsContiguous(firstChunk);
    } else {
      RangesAreContiguous(plans, i + Stride(mirror), groups[1..], mirror, firstChunk + |groups[0]|, profile);
      ChunksBeforeOfTail(groups, |groups|);
      HeadIsContiguous(groups[0], firstChunk, PlanOffset(plans, i), profile);
      ContiguousJoins(HeadRange(groups[0], firstChunk, PlanOffset(plans, i), profile),
                      RangesOf(plans, i + Stride(mirror), groups[1..], mirror, firstChunk + |groups[0]|, profile),
                      firstChunk, firstChunk + |groups[0]|, firstChunk + ChunksBefore(groups, |groups|));
    }
  }

  lemma HeadIsContiguous(chunks: seq<Chunk>, firstChunk: nat, offset: nat, profile: Profile)
    ensures Contiguous(HeadRange(chunks, firstChunk, offset, profile), firstChunk, firstChunk + |chunks|)
  {}

  lemma NothingIsContiguous(first: nat)
    ensures Contiguous([], first, first)
  {}

  /** The range holding chunk `id` leads to the chunk's bytes, size and encoding. */
  ghost predicate RangeFinds(file: Bytes, range: TableRange, id: nat, c: Chunk, chunkSize: nat) {
    && range.firstChunk <= id < range.firstChunk + range.chunkCount
    && var found := Lookup(file, range, id - range.firstChunk, chunkSize);
       && found.Ok?
       && HoldsAt(file, found.value.offset, c.bytes)
       && found.value == Located(found.value.offset, |c.bytes|, if c.compressed then ZlibData else RawData)
  }

  ghost predicate AllWithinCaps(chunks: seq<Chunk>, chunkSize: nat, profile: Profile) {
    forall j | 0 <= j < |chunks| :: WithinCaps(chunks[j], chunkSize, profile)
  }

  /** A laid-out group's range finds each of its chunks. */
  lemma GroupFinds(file: Bytes, plans: seq<Plan>, i: nat, chunks: seq<Chunk>, footer: bool, firstChunk: nat,
                   profile: Profile, chunkSize: nat, j: nat)
    requires Written(file, plans) && i + 1 < |plans|
    requires plans[i] == SectorsOf(chunks)
            && plans[i + 1] == TableOf(chunks, PlanOffset(plans, i) + DESCRIPTOR_SIZE, footer, false)
    requires GroupFits(chunks) && AllWithinCaps(chunks, chunkSize, profile) && j < |chunks|
    ensures RangeFinds(file, RangeOf(chunks, firstChunk, PlanOffset(plans, i), profile), firstChunk + j, chunks[j],
                       chunkSize)
  {
    hide *;
    var range := RangeOf(chunks, firstChunk, PlanOffset(plans, i), profile);
    GroupIsHeld(file, plans, i, chunks, footer, firstChunk, profile);
    HeldGroupFinds(file, range, chunks, j, chunkSize);
  }

  lemma HeldGroupFinds(file: Bytes, range: TableRange, chunks: seq<Chunk>, j: nat, chunkSize: nat)
    requires HoldsAt(file, range.baseOffset, PayloadTo(chunks, |chunks|))
            && HoldsAt(file, range.entriesOffset, Entries(chunks, |chunks|))
    requires range.chunkCount == |chunks| && range.dataEnd == range.baseOffset + TotalSize(chunks) < U64
    requires GroupFits(chunks) && AllWithinCaps(chunks, chunkSize, range.profile) && j < |chunks|
    ensures RangeFinds(file, range, range.firstChunk + j, chunks[j], chunkSize)
  {
    hide Lookup, HoldsAt, PayloadTo, Entries, GroupFits, RelativeOffset, WithinCaps;
    ChunkIsHeld(file, range.baseOffset, chunks, |chunks|, j);
    ChunkIsFound(file, range, chunks, j, chunkSize);
  }

  lemma GroupIsHeld(file: Bytes, plans: seq<Plan>, i: nat, chunks: seq<Chunk>, footer: bool, firstChunk: nat,
                    profile: Profile)
    requires Written(file, plans) && i + 1 < |plans|
    requires plans[i] == SectorsOf(chunks)
            && plans[i + 1] == TableOf(chunks, PlanOffset(plans, i) + DESCRIPTOR_SIZE, footer, false)
    ensures var range := RangeOf(chunks, firstChunk, PlanOffset(plans, i), profile);
            && HoldsAt(file, range.baseOffset, PayloadTo(chunks, |chunks|))
            && HoldsAt(file, range.entriesOffset, Entries(chunks, |chunks|))
            && range.firstChunk == firstChunk && range.chunkCount == |chunks| && range.profile == profile
            && range.dataEnd == range.baseOffset + TotalSize(chunks) < U64
  {
    hide HoldsAt, Written, Scanned, TableData, Entries, PayloadTo;
    PlanIsHeld(file, plans, i);
    PlanIsHeld(file, plans, i + 1);
    TableHoldsEntries(file, Scanned(plans)[i + 1].dataOffset, chunks, PlanOffset(plans, i) + DESCRIPTOR_SIZE, footer);
  }

  lemma TableHoldsEntries(file: Bytes, offset: nat, chunks: seq<Chunk>, base: nat, footer: bool)
    requires HoldsAt(file, offset, TableData(chunks, base, footer))
    ensures HoldsAt(file, offset + TABLE_HEADER_SIZE, Entries(chunks, |chunks|))
  {
    hide *;
    TableHasParts(chunks, base, footer);
    EntriesAreHeld(file, offset, TableData(chunks, base, footer), HeaderBytes(|chunks|, base),
                   Entries(chunks, |chunks|),
                   Footer(Entries(chunks, |chunks|), footer));
  }

  lemma EntriesAreHeld(file: Bytes, offset: nat, table: Bytes, header: Bytes, entries: Bytes, tail: Bytes)
    requires HoldsAt(file, offset, table) && table == header + entries + tail && |header| == TABLE_HEADER_SIZE
    ensures HoldsAt(file, offset + TABLE_HEADER_SIZE, entries)
  {
    SplitThree(file, offset, header, entries, tail);
  }

  lemma TableHasParts(chunks: seq<Chunk>, base: nat, footer: bool)
    ensures TableData(chunks, base, footer)
            == HeaderBytes(|chunks|, base) + Entries(chunks, |chunks|) + Footer(Entries(chunks, |chunks|), footer)
    ensures |HeaderBytes(|chunks|, base)| == TABLE_HEADER_SIZE
  {}

  /** Every chunk of every group has a range that finds it. */
  lemma {:induction false} GroupsFind(file: Bytes, plans: seq<Plan>, i: nat, groups: seq<seq<Chunk>>, footer: bool,
                                      mirror: bool, firstChunk: nat, profile: Profile, chunkSize: nat, g: nat,
                                      j: nat) returns (k: nat)
    requires Written(file, plans) && i <= |plans| && Laid(plans, i, groups, footer, mirror)
    requires i + |groups| * Stride(mirror) <= |plans|
    requires g < |groups| && j < |groups[g]| && GroupFits(groups[g]) && AllWithinCaps(groups[g], chunkSize, profile)
    ensures var ranges := RangesOf(plans, i, groups, mirror, firstChunk, profile);
            k < |ranges| && RangeFinds(file, ranges[k], firstChunk + ChunksBefore(groups, g) + j, groups[g][j],
                                       chunkSize)
    decreases g
  {
    hide RangeFinds, AllWithinCaps, GroupFits, Written, PlanOffset, RangeOf;
    GroupItemsAreThere(plans, i, groups, footer, mirror);
    if g == 0 {
      GroupFinds(file, plans, i, groups[0], footer, firstChunk, profile, chunkSize, j);
      k := 0;
    } else {
      ChunksBeforeOfTail(groups, g);
      k := GroupsFind(file, plans, i + Stride(mirror), groups[1..], footer, mirror, firstChunk + |groups[0]|, profile,
                      chunkSize, g - 1, j);
      k := if groups[0] == [] then k else k + 1;
    }
  }

  // ---------------------------------------------------------------- from the writer's own grouping

  function Sizes(chunks: seq<Chunk>): (sizes: seq<nat>)
    ensures |sizes| == |chunks|
  {
    seq(|chunks|, i requires 0 <= i < |chunks| => |chunks[i].bytes|)
  }

  function Slices(chunks: seq<Chunk>, groups: seq<Group>): (slices: seq<seq<Chunk>>)
    ensures |slices| == |groups|
  {
    seq(|groups|, g requires 0 <= g < |groups| => SliceOf(chunks, groups[g]))
  }

  function SliceOf(chunks: seq<Chunk>, group: Group): seq<Chunk> {
    if group.first <= group.end <= |chunks| then chunks[group.first..group.end] else []
  }

  lemma {:induction false} SliceSize(chunks: seq<Chunk>, first: nat, end: nat, n: nat)
    requires first <= end <= |chunks| && n <= end - first
    ensures RelativeOffset(chunks[first..end], n) == Sum(Sizes(chunks)[first..first + n])
  {
    if n > 0 {
      SliceSize(chunks, first, end, n - 1);
      SumOfSliceStep(Sizes(chunks), first, first + n - 1);
    }
  }

  /** The writer's groups fit under their tables: 31 bits address every chunk, so printing a
      table of one never fails. */
  lemma GroupsAreAddressable(chunks: seq<Chunk>, groups: seq<Group>, g: nat)
    requires IsGrouping(groups, Sizes(chunks), |chunks|, MAX_ENTRIES, MAX_PAYLOAD) && g < |groups|
    ensures GroupFits(SliceOf(chunks, groups[g])) && Addressable(SliceOf(chunks, groups[g]))
  {
    var slice := SliceOf(chunks, groups[g]);
    GroupIsSlice(chunks, groups, g);
    SliceSize(chunks, groups[g].first, groups[g].end, |slice|);
    forall i | 0 <= i < |slice| ensures RelativeOffset(slice, i) < U31 {
      OffsetsGrow(slice, i, |slice|);
    }
  }

  lemma GroupIsSlice(chunks: seq<Chunk>, groups: seq<Group>, g: nat)
    requires IsGrouping(groups, Sizes(chunks), |chunks|, MAX_ENTRIES, MAX_PAYLOAD) && g < |groups|
    ensures InGrouping(groups, Sizes(chunks), g, |chunks|, MAX_ENTRIES, MAX_PAYLOAD)
    ensures groups[g].first == EndBefore(groups, g) < groups[g].end <= |chunks|
    ensures SliceOf(chunks, groups[g]) == chunks[groups[g].first..groups[g].end]
  {}

  lemma {:induction false} SlicesPartition(chunks: seq<Chunk>, groups: seq<Group>, g: nat)
    requires IsGrouping(groups, Sizes(chunks), |chunks|, MAX_ENTRIES, MAX_PAYLOAD) && g <= |groups|
    ensures ChunksBefore(Slices(chunks, groups), g) == EndBefore(groups, g)
  {
    if g > 0 {
      SlicesPartition(chunks, groups, g - 1);
      GroupIsSlice(chunks, groups, g - 1);
    }
  }

  lemma {:induction false} GroupOf(groups: seq<Group>, sizes: seq<nat>, n: nat, c: nat) returns (g: nat)
    requires IsGrouping(groups, sizes, |sizes|, MAX_ENTRIES, MAX_PAYLOAD)
    requires n <= |groups| && c < EndBefore(groups, n)
    ensures g < n && groups[g].first <= c < groups[g].end
    decreases n
  {
    assert InGrouping(groups, sizes, n - 1, |sizes|, MAX_ENTRIES, MAX_PAYLOAD);
    if c >= groups[n - 1].first { g := n - 1; } else { g := GroupOf(groups, sizes, n - 1, c); }
  }

  lemma SlicesFit(chunks: seq<Chunk>, groups: seq<Group>)
    requires IsGrouping(groups, Sizes(chunks), |chunks|, MAX_ENTRIES, MAX_PAYLOAD)
    ensures GroupsFit(Slices(chunks, groups))
  {
    forall g | 0 <= g < |groups| ensures GroupFits(Slices(chunks, groups)[g]) {
      GroupsAreAddressable(chunks, groups, g);
    }
  }

  /** The segment holds `chunks`, grouped as the writer groups them. */
  ghost predicate HoldsChunks(file: Bytes, l: Layout, chunks: seq<Chunk>, groups: seq<Group>) {
    && IsSegmentFile(file, l)
    && chunks != []
    && IsGrouping(groups, Sizes(chunks), |chunks|, MAX_ENTRIES, MAX_PAYLOAD)
    && l.groups == Slices(chunks, groups)
  }

  lemma RangesCover(l: Layout, chunks: seq<Chunk>, groups: seq<Group>, firstChunk: nat, profile: Profile)
    requires IsLayout(l) && |l.pre| + |l.groups| * Stride(l.mirror) <= |l.Plans()|
    requires chunks != [] && IsGrouping(groups, Sizes(chunks), |chunks|, MAX_ENTRIES, MAX_PAYLOAD)
            && l.groups == Slices(chunks, groups)
    ensures Contiguous(SegmentRanges(l, firstChunk, profile), firstChunk, firstChunk + |chunks|)
  {
    hide Layout.Plans, RangesOf;
    RangesAreContiguous(l.Plans(), |l.pre|, l.groups, l.mirror, firstChunk, profile);
    SlicesPartition(chunks, groups, |groups|);
  }

  /** Some range finds chunk `id`. */
  ghost predicate Found(file: Bytes, ranges: seq<TableRange>, id: nat, c: Chunk, chunkSize: nat) {
    exists k | 0 <= k < |ranges| :: RangeFinds(file, ranges[k], id, c, chunkSize)
  }

  ghost predicate AllFound(file: Bytes, ranges: seq<TableRange>, firstChunk: nat, chunks: seq<Chunk>, chunkSize: nat) {
    forall c | 0 <= c < |chunks| :: Found(file, ranges, firstChunk + c, chunks[c], chunkSize)
  }

  /** Reading a written segment: the scan succeeds, the parsed ranges number exactly its
      chunks, without gap or overlap, and each chunk is found with the offset, size and
      encoding it was written with, where the file has its bytes. */
  lemma EveryChunkIsFound(file: Bytes, l: Layout, chunks: seq<Chunk>, groups: seq<Group>, firstChunk: nat,
                          profile: Profile, chunkSize: nat)
    requires HoldsChunks(file, l, chunks, groups) && AllWithinCaps(chunks, chunkSize, profile)
    ensures ScanFrom(file, FILE_HEADER_SIZE).Ok?
    ensures var sections := ScanFrom(file, FILE_HEADER_SIZE).value;
            var parsed := ParseSections(file, sections, 0, |sections|, profile, ParseState([], firstChunk, NoTable));
            && parsed.Ok?
            && Contiguous(parsed.value.ranges, firstChunk, firstChunk + |chunks|)
            && AllFound(file, parsed.value.ranges, firstChunk, chunks, chunkSize)
  {
    hide *;
    ChunksAreLaidOut(file, l, chunks, groups);
    SegmentIsParsed(file, l, firstChunk, profile);
    RangesCover(l, chunks, groups, firstChunk, profile);
    RangesFind(file, l, chunks, groups, firstChunk, profile, chunkSize);
  }

  lemma RangesFind(file: Bytes, l: Layout, chunks: seq<Chunk>, groups: seq<Group>, firstChunk: nat, profile: Profile,
                   chunkSize: nat)
    requires HoldsChunks(file, l, chunks, groups) && AllWithinCaps(chunks, chunkSize, profile)
    requires |l.pre| + |l.groups| * Stride(l.mirror) <= |l.Plans()|
    ensures AllFound(file, SegmentRanges(l, firstChunk, profile), firstChunk, chunks, chunkSize)
  {
    hide HoldsChunks, SegmentRanges, AllWithinCaps, Layout.Plans, Found;
    forall c | 0 <= c < |chunks|
      ensures Found(file, SegmentRanges(l, firstChunk, profile), firstChunk + c, chunks[c], chunkSize)
    {
      ChunkHasRange(file, l, chunks, groups, firstChunk, profile, chunkSize, c);
    }
  }

  lemma ChunksAreLaidOut(file: Bytes, l: Layout, chunks: seq<Chunk>, groups: seq<Group>)
    requires HoldsChunks(file, l, chunks, groups)
    ensures IsSegmentFile(file, l) && IsLayout(l) && GroupsFit(l.groups)
    ensures chunks != [] && IsGrouping(groups, Sizes(chunks), |chunks|, MAX_ENTRIES, MAX_PAYLOAD)
            && l.groups == Slices(chunks, groups)
  {
    SlicesFit(chunks, groups);
  }

  lemma ChunkHasRange(file: Bytes, l: Layout, chunks: seq<Chunk>, groups: seq<Group>, firstChunk: nat,
                      profile: Profile, chunkSize: nat, c: nat)
    requires HoldsChunks(file, l, chunks, groups) && AllWithinCaps(chunks, chunkSize, profile) && c < |chunks|
    requires |l.pre| + |l.groups| * Stride(l.mirror) <= |l.Plans()|
    ensures Found(file, SegmentRanges(l, firstChunk, profile), firstChunk + c, chunks[c], chunkSize)
  {
    hide Layout.Plans, RangesOf, RangeFinds, WithinCaps, Written, Scanned, GroupFits, Laid, IsSegmentFile, ScanFrom,
        IsGrouping;
    ChunksAreLaidOut(file, l, chunks, groups);
    var g := GroupOf(groups, Sizes(chunks), |groups|, c);
    SlicesPartition(chunks, groups, g);
    GroupsAreAddressable(chunks, groups, g);
    GroupIsSlice(chunks, groups, g);
    SegmentIsWritten(file, l);
    LayoutIsLaid(l);
    assert l.groups[g] == chunks[groups[g].first..groups[g].end];
    var k := GroupsFind(file, l.Plans(), |l.pre|, l.groups, l.footer, l.mirror, firstChunk, profile, chunkSize, g,
                        c - groups[g].first);
  }
}
