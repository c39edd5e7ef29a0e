/** What the EWF1 reader resolves from a segment is exactly what the EWF1 writer laid out. */
module Ewf1RoundTrip {
  import opened Basics
  import opened ChunkCodec
  import opened Ewf1Sections
  import opened Ewf1Tables
  import Ewf1Groups

  // ---------------------------------------------------------------- planning a segment

  /** A section as the writer plans it: its data size is known before its bytes are. */
  datatype Plan =
    | Plain(item: Item)
    | SectorsOf(chunks: seq<Chunk>)
    | TableOf(chunks: seq<Chunk>, base: nat, footer: bool, mirror: bool)
  {
    function DataSize(): nat {
      match this
      case Plain(item) => |item.payload|
      case SectorsOf(chunks) => TotalSize(chunks)
      case TableOf(chunks, _, footer, _) => TABLE_HEADER_SIZE + 4 * |chunks| + (if footer then 4 else 0)
    }

    function Render(): Item {
      match this
      case Plain(item) => item
      case SectorsOf(chunks) => Item(SECTORS, Payload(chunks))
      case TableOf(chunks, base, footer, mirror) => Item(if mirror then TABLE2 else TABLE,
                                                         TableData(chunks, base, footer))
    }
  }

  function PlanOffset(plans: seq<Plan>, i: nat): nat
    requires i <= |plans|
  {
    if i == 0 then FILE_HEADER_SIZE else PlanOffset(plans, i - 1) + DESCRIPTOR_SIZE + plans[i - 1].DataSize()
  }

  function Rendered(plans: seq<Plan>): (items: seq<Item>)
    ensures |items| == |plans| && forall i | 0 <= i < |plans| :: items[i] == plans[i].Render()
  {
    seq(|plans|, i requires 0 <= i < |plans| => plans[i].Render())
  }

  /** A sectors section, its table and, outside SMART output, the mirror of that table. */
  function GroupPlans(chunks: seq<Chunk>, start: nat, footer: bool, mirror: bool): seq<Plan> {
    [SectorsOf(chunks), TableOf(chunks, start + DESCRIPTOR_SIZE, footer, false)]
    + (if mirror then [TableOf(chunks, start + DESCRIPTOR_SIZE, true, true)] else [])
  }

  function Stride(mirror: bool): nat { if mirror then 3 else 2 }

  function GroupSize(chunks: seq<Chunk>, footer: bool, mirror: bool): nat {
    var table := DESCRIPTOR_SIZE + TABLE_HEADER_SIZE + 4 * |chunks|;
    DESCRIPTOR_SIZE + TotalSize(chunks) + table + (if footer then 4 else 0) + (if mirror then table + 4 else 0)
  }

  /** The groups from `start` on, followed by the sections that come after the tables. */
  function BodyPlans(groups: seq<seq<Chunk>>, post: seq<Plan>, start: nat, footer: bool, mirror: bool): seq<Plan> {
    if groups == [] then post
    else GroupPlans(groups[0], start, footer, mirror)
         + BodyPlans(groups[1..], post, start + GroupSize(groups[0], footer, mirror), footer, mirror)
  }

  function SegmentPlans(pre: seq<Plan>, groups: seq<seq<Chunk>>, post: seq<Plan>, footer: bool,
                        mirror: bool): seq<Plan> {
    pre + BodyPlans(groups, post, PlanOffset(pre, |pre|), footer, mirror)
  }

  predicate IsTablePlan(p: Plan) { p.TableOf? || (p.Plain? && IsTable(p.item.kind)) }

  /** From plan `i` on come the sections of `groups`, each table based on its own sectors data,
      and then no more tables. */
  ghost predicate Laid(plans: seq<Plan>, i: nat, groups: seq<seq<Chunk>>, footer: bool, mirror: bool)
    requires i <= |plans|
    decreases |groups|
  {
    if groups == [] then forall m | i <= m < |plans| :: !IsTablePlan(plans[m])
    else
      && i + Stride(mirror) <= |plans|
      && plans[i..i + Stride(mirror)] == GroupPlans(groups[0], PlanOffset(plans, i), footer, mirror)
      && Laid(plans, i + Stride(mirror), groups[1..], footer, mirror)
  }

  lemma {:induction false} OffsetInPrefix(a: seq<Plan>, b: seq<Plan>, i: nat)
    requires i <= |a|
    ensures PlanOffset(a + b, i) == PlanOffset(a, i)
  {
    if i > 0 { OffsetInPrefix(a, b, i - 1); }
  }

  lemma OffsetAfterGroup(a: seq<Plan>, chunks: seq<Chunk>, footer: bool, mirror: bool)
    ensures var start := PlanOffset(a, |a|);
            var group := GroupPlans(chunks, start, footer, mirror);
            |group| == Stride(mirror)
                && PlanOffset(a + group, |a| + |group|) == start + GroupSize(chunks, footer, mirror)
  {
    var group := GroupPlans(chunks, PlanOffset(a, |a|), footer, mirror);
    OffsetInPrefix(a, group, |a|);
    assert PlanOffset(a + group, |a| + 2)
        == PlanOffset(a + group, |a|) + 2 * DESCRIPTOR_SIZE + group[0].DataSize() + group[1].DataSize();
  }

  lemma {:induction false} BodyIsLaid(a: seq<Plan>, groups: seq<seq<Chunk>>, post: seq<Plan>, footer: bool,
                                      mirror: bool)
    requires forall m | 0 <= m < |post| :: !IsTablePlan(post[m])
    ensures Laid(a + BodyPlans(groups, post, PlanOffset(a, |a|), footer, mirror), |a|, groups, footer, mirror)
    decreases |groups|
  {
    hide GroupPlans, GroupSize, PlanOffset, IsTablePlan;
    var start := PlanOffset(a, |a|);
    if groups != [] {
      var group := GroupPlans(groups[0], start, footer, mirror);
      var rest := BodyPlans(groups[1..], post, start + GroupSize(groups[0], footer, mirror), footer, mirror);
      OffsetAfterGroup(a, groups[0], footer, mirror);
      OffsetInPrefix(a, group + rest, |a|);
      assert a + (group + rest) == (a + group) + rest;
      BodyIsLaid(a + group, groups[1..], post, footer, mirror);
    } else {
      assert forall m | |a| <= m < |a + post| :: (a + post)[m] == post[m - |a|];
    }
  }

  /** Planning from sizes puts every section where its bytes will go. */
  lemma {:induction false} PlannedOffsetsAreReal(plans: seq<Plan>, i: nat)
    requires i <= |plans|
    ensures ItemOffset(Rendered(plans), FILE_HEADER_SIZE, i) == PlanOffset(plans, i)
  {
    if i > 0 {
      PlannedOffsetsAreReal(plans, i - 1);
    }
  }

  // ---------------------------------------------------------------- table bytes

  lemma {:induction false} EntryIsHeld(file: Bytes, offset: nat, chunks: seq<Chunk>, count: nat, i: nat)
    requires i < count <= |chunks| && HoldsAt(file, offset, Entries(chunks, count))
    ensures HoldsAt(file, offset + 4 * i, Le(EntryValue(chunks, i), 4))
    decreases count
  {
    SplitHolds(file, offset, Entries(chunks, count - 1), Le(EntryValue(chunks, count - 1), 4));
    if i < count - 1 { EntryIsHeld(file, offset, chunks, count - 1, i); }
  }

  lemma {:induction false} ChunkIsHeld(file: Bytes, offset: nat, chunks: seq<Chunk>, count: nat, i: nat)
    requires i < count <= |chunks| && HoldsAt(file, offset, PayloadTo(chunks, count))
    ensures HoldsAt(file, offset + RelativeOffset(chunks, i), chunks[i].bytes)
    decreases count
  {
    SplitHolds(file, offset, PayloadTo(chunks, count - 1), chunks[count - 1].bytes);
    if i < count - 1 { ChunkIsHeld(file, offset, chunks, count - 1, i); }
  }

  /** The 24 header bytes say how many entries follow and what they are relative to. */
  predicate HeaderSays(header: Bytes, count: nat, base: nat) {
    && |header| == TABLE_HEADER_SIZE
    && FromLe(header[..4]) == count && FromLe(header[8..16]) == base
    && ChecksumAccepted(FromLe(header[20..24]), header[..20])
  }

  /** What follows the entries is nothing, or their checksum. */
  predicate FooterSays(tail: Bytes, entries: Bytes) {
    tail == [] || (|tail| == 4 && ChecksumAccepted(FromLe(tail), entries))
  }

  lemma HeaderRoundTrip(count: nat, base: nat)
    requires count < U32 && base < U64
    ensures HeaderSays(HeaderBytes(count, base), count, base)
  {
    var body, header := HeaderBody(count, base), HeaderBytes(count, base);
    assert header[..4] == Le(count, 4);
    assert header[8..16] == Le(base, 8);
    assert header[..20] == body && header[20..24] == Le(Adler32(body), 4);
    Le4RoundTrip(count);
    Le8RoundTrip(base);
    Le4RoundTrip(Adler32(body));
  }

  lemma TableParts(chunks: seq<Chunk>, base: nat, footer: bool) returns (header: Bytes, entries: Bytes, tail: Bytes)
    requires |chunks| < U32 && base < U64
    ensures TableData(chunks, base, footer) == header + entries + tail
    ensures entries == Entries(chunks, |chunks|) && HeaderSays(header, |chunks|, base) && FooterSays(tail, entries)
  {
    header, entries, tail := HeaderBytes(|chunks|, base), Entries(chunks, |chunks|),
        Footer(Entries(chunks, |chunks|), footer);
    HeaderRoundTrip(|chunks|, base);
    if footer { Le4RoundTrip(Adler32(entries)); }
  }

  /** A printed table header is read back, and its checksum accepted. */
  lemma HeaderIsRead(file: Bytes, s: Section, header: Bytes, rest: Bytes, count: nat, base: nat)
    requires HoldsAt(file, s.dataOffset, header + rest) && HeaderSays(header, count, base)
    requires s.dataSize == |header + rest|
    ensures TableHeader(file, s) == Ok((count, base))
  {
    SplitHolds(file, s.dataOffset, header, rest);
    assert file[s.dataOffset..s.dataOffset + TABLE_HEADER_SIZE] == header;
  }

  /** Every payload is in the file where its section was placed. */
  ghost predicate PayloadsHeld(file: Bytes, items: seq<Item>) {
    && |file| < U64
    && forall i | 0 <= i < |items| ::
        HoldsAt(file, ItemOffset(items, FILE_HEADER_SIZE, i) + DESCRIPTOR_SIZE, items[i].payload)
  }

  lemma ChainHoldsPayloads(file: Bytes, items: seq<Item>)
    requires HoldsChain(file, items, FILE_HEADER_SIZE)
    ensures PayloadsHeld(file, items)
  {
    forall i | 0 <= i < |items|
      ensures HoldsAt(file, ItemOffset(items, FILE_HEADER_SIZE, i) + DESCRIPTOR_SIZE, items[i].payload)
    {
      PayloadIsHeld(file, items, FILE_HEADER_SIZE, i);
    }
  }

  // ---------------------------------------------------------------- ranges

  /** The caps of one table group: a single chunk, or at most 2^31 - 1 bytes. */
  ghost predicate GroupFits(chunks: seq<Chunk>) {
    && |chunks| < U32
    && (|chunks| <= 1 || TotalSize(chunks) < U31)
  }

  function RangeOf(chunks: seq<Chunk>, firstChunk: nat, sectorsOffset: nat, profile: Profile): TableRange {
    var base := sectorsOffset + DESCRIPTOR_SIZE;
    var tableData := base + |Payload(chunks)| + DESCRIPTOR_SIZE;
    TableRange(firstChunk, |chunks|, tableData + TABLE_HEADER_SIZE, base, base + |Payload(chunks)|, profile)
  }

  function HeadRange(chunks: seq<Chunk>, firstChunk: nat, offset: nat, profile: Profile): seq<TableRange> {
    if chunks == [] then [] else [RangeOf(chunks, firstChunk, offset, profile)]
  }

  /** The ranges of the groups laid out from plan `i` on; an empty group has none. */
  function RangesOf(plans: seq<Plan>, i: nat, groups: seq<seq<Chunk>>, mirror: bool, firstChunk: nat,
                    profile: Profile): seq<TableRange>
    requires i + |groups| * Stride(mirror) <= |plans|
    decreases |groups|
  {
    if groups == [] then []
    else
      HeadRange(groups[0], firstChunk, PlanOffset(plans, i), profile)
      + RangesOf(plans, i + Stride(mirror), groups[1..], mirror, firstChunk + |groups[0]|, profile)
  }

  lemma {:induction false} LaidFits(plans: seq<Plan>, i: nat, groups: seq<seq<Chunk>>, footer: bool, mirror: bool)
    requires i <= |plans| && Laid(plans, i, groups, footer, mirror)
    ensures i + |groups| * Stride(mirror) <= |plans|
    decreases |groups|
  {
    if groups != [] { LaidFits(plans, i + Stride(mirror), groups[1..], footer, mirror); }
  }

  /** The table's own sectors section is the first to match its base offset. */
  lemma {:induction false} SectorsAreFound(items: seq<Item>, i: nat, from: nat)
    requires from <= i < |items| && items[i].kind == SECTORS
    ensures var base := ItemOffset(items, FILE_HEADER_SIZE, i) + DESCRIPTOR_SIZE;
            FindSectors(PlacedSections(items, FILE_HEADER_SIZE), base, true, from)
            == Some(PlacedSection(items, FILE_HEADER_SIZE, i))
    decreases i - from
  {
    if from < i {
      ItemsAreInOrder(items, FILE_HEADER_SIZE, from, i);
      SectorsAreFound(items, i, from + 1);
    }
  }

  /** A table whose base is the data of a sectors section of its own points into that section. */
  lemma RegionIsSectors(file: Bytes, sections: seq<Section>, s: Section, sectors: Section, header: Bytes,
                        entries: Bytes, tail: Bytes, base: nat)
    requires HoldsAt(file, s.dataOffset, header + entries + tail) && |header| == TABLE_HEADER_SIZE && base > 0
    requires s.dataSize == |header + entries + tail| && FooterSays(tail, entries)
    requires FindSectors(sections, base, true, 0) == Some(sectors)
    ensures DataRegion(file, sections, s, base, s.dataOffset + TABLE_HEADER_SIZE + |entries|)
            == Ok((base, sectors.DataEnd()))
  {
    SplitThree(file, s.dataOffset, header, entries, tail);
    ZerosAreZero(4);
  }

  lemma TableIsResolved(file: Bytes, sections: seq<Section>, s: Section, sectors: Section, header: Bytes,
                        entries: Bytes, tail: Bytes,
                        count: nat, base: nat, profile: Profile, state: ParseState)
    requires HoldsAt(file, s.dataOffset, header + entries + tail) && HeaderSays(header, count, base) && base > 0
    requires s.kind == TABLE && s.dataSize == |header + entries + tail| && |entries| == 4 * count
            && FooterSays(tail, entries)
    requires FindSectors(sections, base, true, 0) == Some(sectors) && count > 0
    ensures ParseSection(file, sections, s, profile, state)
            == Ok(ParseState(state.ranges
                             + [TableRange(state.nextChunk, count, s.dataOffset + TABLE_HEADER_SIZE, base,
                                           sectors.DataEnd(), profile)],
                             state.nextChunk + count, Table(true, count, base)))
  {
    assert header + entries + tail == header + (entries + tail);
    HeaderIsRead(file, s, header, entries + tail, count, base);
    RegionIsSectors(file, sections, s, sectors, header, entries, tail, base);
  }

  lemma PrintedTableIsResolved(file: Bytes, sections: seq<Section>, s: Section, sectors: Section, chunks: seq<Chunk>,
                               base: nat, footer: bool, profile: Profile, state: ParseState)
    requires HoldsAt(file, s.dataOffset, TableData(chunks, base, footer))
    requires s.kind == TABLE && s.dataSize == |TableData(chunks, base, footer)| && 0 < base < U64
    requires FindSectors(sections, base, true, 0) == Some(sectors) && 0 < |chunks| < U32
    ensures ParseSection(file, sections, s, profile, state)
            == Ok(ParseState(state.ranges
                             + [TableRange(state.nextChunk, |chunks|, s.dataOffset + TABLE_HEADER_SIZE, base,
                                           sectors.DataEnd(), profile)],
                             state.nextChunk + |chunks|, Table(true, |chunks|, base)))
  {
    var header, entries, tail := TableParts(chunks, base, footer);
    TableIsResolved(file, sections, s, sectors, header, entries, tail, |chunks|, base, profile, state);
  }

  /** Item `i` holds the group's payload and the next one a table based on it. */
  ghost predicate GroupAt(items: seq<Item>, i: nat, chunks: seq<Chunk>, footer: bool)
    requires i + 1 < |items|
  {
    && items[i] == Item(SECTORS, Payload(chunks))
    && items[i + 1] == Item(TABLE, TableData(chunks, ItemOffset(items, FILE_HEADER_SIZE, i) + DESCRIPTOR_SIZE, footer))
  }

  lemma GroupIsPlaced(file: Bytes, items: seq<Item>, i: nat, chunks: seq<Chunk>, footer: bool)
    requires PayloadsHeld(file, items) && i + 1 < |items| && GroupAt(items, i, chunks, footer)
    ensures var sectors, s := PlacedSection(items, FILE_HEADER_SIZE, i), PlacedSection(items, FILE_HEADER_SIZE, i + 1);
            var base := ItemOffset(items, FILE_HEADER_SIZE, i) + DESCRIPTOR_SIZE;
            && HoldsAt(file, base, Payload(chunks)) && HoldsAt(file, s.dataOffset, TableData(chunks, base, footer))
            && s.kind == TABLE && s.dataSize == |TableData(chunks, base, footer)|
            && s.dataOffset == base + |Payload(chunks)| + DESCRIPTOR_SIZE
                && sectors.DataEnd() == base + |Payload(chunks)|
            && 0 < base < U64
            && FindSectors(PlacedSections(items, FILE_HEADER_SIZE), base, true, 0) == Some(sectors)
  {
    SectorsAreFound(items, i, 0);
  }

  /** The reader's step over a laid-out table appends exactly its group's range. */
  lemma TableIsParsed(file: Bytes, items: seq<Item>, i: nat, chunks: seq<Chunk>, footer: bool, profile: Profile,
                      state: ParseState)
    requires PayloadsHeld(file, items) && i + 1 < |items| && GroupAt(items, i, chunks, footer)
    requires |chunks| < U32 && chunks != []
    ensures var offset := ItemOffset(items, FILE_HEADER_SIZE, i);
            ParseSection(file, PlacedSections(items, FILE_HEADER_SIZE), PlacedSection(items, FILE_HEADER_SIZE, i + 1),
                         profile, state)
            == Ok(ParseState(state.ranges + [RangeOf(chunks, state.nextChunk, offset, profile)],
                             state.nextChunk + |chunks|, Table(true, |chunks|, offset + DESCRIPTOR_SIZE)))
  {
    hide ParseSection, TableData, HoldsAt, FindSectors, PlacedSections, PayloadsHeld, GroupAt, ItemOffset;
    var sectors, s := PlacedSection(items, FILE_HEADER_SIZE, i), PlacedSection(items, FILE_HEADER_SIZE, i + 1);
    GroupIsPlaced(file, items, i, chunks, footer);
    PrintedTableIsResolved(file, PlacedSections(items, FILE_HEADER_SIZE), s, sectors, chunks,
                           ItemOffset(items, FILE_HEADER_SIZE, i) + DESCRIPTOR_SIZE, footer, profile, state);
  }

  lemma ZerosAreZero(n: nat)
    ensures FromLe(Zeros(n)) == 0
  {
    if n > 0 {
      assert Zeros(n)[1..] == Zeros(n - 1);
      ZerosAreZero(n - 1);
    }
  }

  // ---------------------------------------------------------------- parsing all the groups

  /** The mirror of a table just parsed is skipped. */
  lemma MirrorIsSkipped(file: Bytes, sections: seq<Section>, s: Section, chunks: seq<Chunk>, base: nat,
                        profile: Profile, state: ParseState)
    requires HoldsAt(file, s.dataOffset, TableData(chunks, base, true)) && s.dataSize == |TableData(chunks, base, true)|
    requires s.kind == TABLE2 && base < U64 && |chunks| < U32
    requires chunks == [] || state.previous == Table(true, |chunks|, base)
    ensures ParseSection(file, sections, s, profile, state) == Ok(state)
  {
    var header, entries, tail := TableParts(chunks, base, true);
    assert header + entries + tail == header + (entries + tail);
    HeaderIsRead(file, s, header, entries + tail, |chunks|, base);
    hide TableHeader, TableData, DataRegion, HoldsAt;
  }

  lemma EmptyTableIsSkipped(file: Bytes, sections: seq<Section>, s: Section, base: nat, footer: bool, profile: Profile,
                            state: ParseState)
    requires HoldsAt(file, s.dataOffset, TableData([], base, footer)) && s.dataSize == |TableData([], base, footer)|
    requires IsTable(s.kind) && base < U64
    ensures ParseSection(file, sections, s, profile, state) == Ok(state)
  {
    var header, entries, tail := TableParts([], base, footer);
    assert header + entries + tail == header + (entries + tail);
    HeaderIsRead(file, s, header, entries + tail, 0, base);
  }

  /** What parsing one group adds to the state. */
  function Extended(state: ParseState, chunks: seq<Chunk>, offset: nat, profile: Profile): ParseState {
    if chunks == [] then state
    else ParseState(state.ranges + [RangeOf(chunks, state.nextChunk, offset, profile)],
                    state.nextChunk + |chunks|, Table(true, |chunks|, offset + DESCRIPTOR_SIZE))
  }

  ghost predicate Written(file: Bytes, plans: seq<Plan>) {
    PayloadsHeld(file, Rendered(plans))
  }

  function Scanned(plans: seq<Plan>): seq<Section> { PlacedSections(Rendered(plans), FILE_HEADER_SIZE) }

  lemma GroupItemsAreThere(plans: seq<Plan>, i: nat, groups: seq<seq<Chunk>>, footer: bool, mirror: bool)
    requires i <= |plans| && groups != [] && Laid(plans, i, groups, footer, mirror)
    ensures i + Stride(mirror) <= |plans|
    ensures plans[i] == SectorsOf(groups[0])
    ensures plans[i + 1] == TableOf(groups[0], PlanOffset(plans, i) + DESCRIPTOR_SIZE, footer, false)
    ensures mirror ==> plans[i + 2] == TableOf(groups[0], PlanOffset(plans, i) + DESCRIPTOR_SIZE, true, true)
  {
    var slice := plans[i..i + Stride(mirror)];
    assert slice[0] == plans[i] && slice[1] == plans[i + 1];
    assert mirror ==> slice[2] == plans[i + 2];
  }

  lemma EmptyFirstTableIsParsed(file: Bytes, plans: seq<Plan>, i: nat, footer: bool, profile: Profile,
                                state: ParseState)
    requires Written(file, plans) && i + 1 < |plans|
    requires plans[i] == SectorsOf([])
            && plans[i + 1] == TableOf([], PlanOffset(plans, i) + DESCRIPTOR_SIZE, footer, false)
    ensures ParseSection(file, Scanned(plans), Scanned(plans)[i + 1], profile, state) == Ok(state)
  {
    hide *;
    var base := PlanOffset(plans, i) + DESCRIPTOR_SIZE;
    TableIsPlaced(file, plans, i, i + 1, [], base, footer, false);
    EmptyTableIsSkipped(file, Scanned(plans), Scanned(plans)[i + 1], base, footer, profile, state);
  }

  lemma FirstTableIsParsed(file: Bytes, plans: seq<Plan>, i: nat, chunks: seq<Chunk>, footer: bool, profile: Profile,
                           state: ParseState)
    requires Written(file, plans) && i + 1 < |plans| && |chunks| < U32
    requires plans[i] == SectorsOf(chunks)
            && plans[i + 1] == TableOf(chunks, PlanOffset(plans, i) + DESCRIPTOR_SIZE, footer, false)
    ensures ParseSection(file, Scanned(plans), Scanned(plans)[i + 1], profile, state)
            == Ok(Extended(state, chunks, PlanOffset(plans, i), profile))
  {
    hide *;
    if chunks == [] {
      EmptyFirstTableIsParsed(file, plans, i, footer, profile, state);
      ExtendedByNothing(state, PlanOffset(plans, i), profile);
    } else {
      PlansArePlaced(plans, i + 1);
      GroupIsRendered(file, plans, i, chunks, footer);
      ExtendedBySome(state, chunks, PlanOffset(plans, i), profile);
      TableIsParsed(file, Rendered(plans), i, chunks, footer, profile, state);
    }
  }

  lemma ExtendedByNothing(state: ParseState, offset: nat, profile: Profile)
    ensures Extended(state, [], offset, profile) == state
  {}

  lemma ExtendedBySome(state: ParseState, chunks: seq<Chunk>, offset: nat, profile: Profile)
    requires chunks != []
    ensures Extended(state, chunks, offset, profile)
            == ParseState(state.ranges + [RangeOf(chunks, state.nextChunk, offset, profile)],
                          state.nextChunk + |chunks|, Table(true, |chunks|, offset + DESCRIPTOR_SIZE))
  {}

  lemma GroupIsRendered(file: Bytes, plans: seq<Plan>, i: nat, chunks: seq<Chunk>, footer: bool)
    requires Written(file, plans) && i + 1 < |plans|
    requires plans[i] == SectorsOf(chunks)
            && plans[i + 1] == TableOf(chunks, PlanOffset(plans, i) + DESCRIPTOR_SIZE, footer, false)
    ensures PayloadsHeld(file, Rendered(plans)) && GroupAt(Rendered(plans), i, chunks, footer)
    ensures ItemOffset(Rendered(plans), FILE_HEADER_SIZE, i) == PlanOffset(plans, i)
  {
    hide PayloadsHeld, Payload, TableData;
    PlansArePlaced(plans, i);
    PlansArePlaced(plans, i + 1);
  }

  /** A planned section lies where it was planned to. */
  lemma PlansArePlaced(plans: seq<Plan>, i: nat)
    requires i < |plans|
    ensures Rendered(plans)[i] == plans[i].Render()
    ensures ItemOffset(Rendered(plans), FILE_HEADER_SIZE, i) == PlanOffset(plans, i)
    ensures Scanned(plans) == PlacedSections(Rendered(plans), FILE_HEADER_SIZE)
    ensures |Scanned(plans)| == |plans| && Scanned(plans)[i] == PlacedSection(Rendered(plans), FILE_HEADER_SIZE, i)
  {
    PlannedOffsetsAreReal(plans, i);
  }

  lemma MirrorTableIsParsed(file: Bytes, plans: seq<Plan>, i: nat, chunks: seq<Chunk>, profile: Profile,
                            state: ParseState)
    requires Written(file, plans) && i + 2 < |plans| && |chunks| < U32
    requires plans[i] == SectorsOf(chunks)
            && plans[i + 2] == TableOf(chunks, PlanOffset(plans, i) + DESCRIPTOR_SIZE, true, true)
    ensures var next := Extended(state, chunks, PlanOffset(plans, i), profile);
            ParseSection(file, Scanned(plans), Scanned(plans)[i + 2], profile, next) == Ok(next)
  {
    var next := Extended(state, chunks, PlanOffset(plans, i), profile);
    var base := PlanOffset(plans, i) + DESCRIPTOR_SIZE;
    var s := Scanned(plans)[i + 2];
    TableIsPlaced(file, plans, i, i + 2, chunks, base, true, true);
    assert chunks == [] || next.previous == Table(true, |chunks|, base);
    hide *;
    MirrorIsSkipped(file, Scanned(plans), s, chunks, base, profile, next);
  }

  lemma TableIsPlaced(file: Bytes, plans: seq<Plan>, i: nat, m: nat, chunks: seq<Chunk>, base: nat, footer: bool,
                      mirror: bool)
    requires Written(file, plans) && i < m < |plans| && base == PlanOffset(plans, i) + DESCRIPTOR_SIZE
    requires plans[i] == SectorsOf(chunks) && plans[m] == TableOf(chunks, base, footer, mirror)
    ensures |Scanned(plans)| == |plans|
    ensures var s := Scanned(plans)[m];
            && HoldsAt(file, s.dataOffset, TableData(chunks, base, footer))
                && s.dataSize == |TableData(chunks, base, footer)|
            && s.kind == (if mirror then TABLE2 else TABLE) && IsTable(s.kind) && base < U64
  {
    PlanIsHeld(file, plans, i);
    PlanIsHeld(file, plans, m);
    hide TableData, Payload, HoldsAt, PlanOffset, PlacedSections, PayloadsHeld, Rendered;
  }

  /** A planned section's bytes are in the file, at the data offset the scan reports. */
  lemma PlanIsHeld(file: Bytes, plans: seq<Plan>, m: nat)
    requires Written(file, plans) && m < |plans|
    ensures |Scanned(plans)| == |plans|
    ensures var s, item := Scanned(plans)[m], plans[m].Render();
            && s.dataOffset == PlanOffset(plans, m) + DESCRIPTOR_SIZE && s.dataOffset + |item.payload| <= |file| < U64
            && HoldsAt(file, s.dataOffset, item.payload)
            && s.kind == item.kind && s.dataSize == |item.payload|
  {
    hide Plan.Render;
    PlansArePlaced(plans, m);
  }

  lemma {:induction false} OthersAreSkipped(file: Bytes, sections: seq<Section>, i: nat, j: nat, profile: Profile,
                                            state: ParseState)
    requires i <= j <= |sections| && forall m | i <= m < j :: !IsTable(sections[m].kind)
    ensures ParseSections(file, sections, i, j, profile, state) == Ok(state)
    decreases j - i
  {
    if i < j { OthersAreSkipped(file, sections, i + 1, j, profile, state); }
  }

  lemma RangesStep(plans: seq<Plan>, i: nat, groups: seq<seq<Chunk>>, mirror: bool, profile: Profile, state: ParseState)
    requires i + |groups| * Stride(mirror) <= |plans| && groups != []
    ensures i + Stride(mirror) + |groups[1..]| * Stride(mirror) <= |plans|
    ensures var next := Extended(state, groups[0], PlanOffset(plans, i), profile);
            next.ranges + RangesOf(plans, i + Stride(mirror), groups[1..], mirror, next.nextChunk, profile)
            == state.ranges + RangesOf(plans, i, groups, mirror, state.nextChunk, profile)
  {}

  /** Parsing from the first group to the end yields the ranges of all groups, in order. */
  lemma {:induction false} GroupsAreParsed(file: Bytes, plans: seq<Plan>, i: nat, groups: seq<seq<Chunk>>,
                                           footer: bool, mirror: bool,
                                           profile: Profile, state: ParseState)
    requires Written(file, plans) && i <= |plans| && Laid(plans, i, groups, footer, mirror)
    requires forall g | 0 <= g < |groups| :: |groups[g]| < U32
    requires i + |groups| * Stride(mirror) <= |plans|
    ensures var parsed := ParseSections(file, Scanned(plans), i, |plans|, profile, state);
            parsed.Ok? && parsed.value.ranges
                == state.ranges + RangesOf(plans, i, groups, mirror, state.nextChunk, profile)
    decreases |groups|
  {
    if groups == [] {
      OthersAreSkipped(file, Scanned(plans), i, |plans|, profile, state);
    } else {
      GroupItemsAreThere(plans, i, groups, footer, mirror);
      var next := Extended(state, groups[0], PlanOffset(plans, i), profile);
      GroupIsStepped(file, plans, i, groups[0], footer, mirror, profile, state);
      RangesStep(plans, i, groups, mirror, profile, state);
      GroupsAreParsed(file, plans, i + Stride(mirror), groups[1..], footer, mirror, profile, next);
    }
  }

  lemma GroupIsStepped(file: Bytes, plans: seq<Plan>, i: nat, chunks: seq<Chunk>, footer: bool, mirror: bool,
                       profile: Profile, state: ParseState)
    requires Written(file, plans) && i + Stride(mirror) <= |plans| && |chunks| < U32
    requires plans[i] == SectorsOf(chunks)
    requires plans[i + 1] == TableOf(chunks, PlanOffset(plans, i) + DESCRIPTOR_SIZE, footer, false)
    requires mirror ==> plans[i + 2] == TableOf(chunks, PlanOffset(plans, i) + DESCRIPTOR_SIZE, true, true)
    ensures ParseSections(file, Scanned(plans), i, |plans|, profile, state)
            == ParseSections(file, Scanned(plans), i + Stride(mirror), |plans|, profile,
                             Extended(state, chunks, PlanOffset(plans, i), profile))
  {
    FirstTableIsParsed(file, plans, i, chunks, footer, profile, state);
    if mirror { MirrorTableIsParsed(file, plans, i, chunks, profile, state); }
    SectionsAreStepped(file, Scanned(plans), i, mirror, profile, state,
                       Extended(state, chunks, PlanOffset(plans, i), profile));
  }

  /** Stepping over the two or three sections of a group. */
  lemma SectionsAreStepped(file: Bytes, sections: seq<Section>, i: nat, mirror: bool, profile: Profile,
                           state: ParseState, next: ParseState)
    requires i + Stride(mirror) <= |sections| && sections[i].kind == SECTORS
    requires ParseSection(file, sections, sections[i + 1], profile, state) == Ok(next)
    requires mirror ==> ParseSection(file, sections, sections[i + 2], profile, next) == Ok(next)
    ensures ParseSections(file, sections, i, |sections|, profile, state)
            == ParseSections(file, sections, i + Stride(mirror), |sections|, profile, next)
  {
    assert ParseSections(file, sections, i, |sections|, profile, state)
        == ParseSections(file, sections, i + 1, |sections|, profile, state);
    assert ParseSections(file, sections, i + 1, |sections|, profile, state)
        == ParseSections(file, sections, i + 2, |sections|, profile, next);
  }

  // ---------------------------------------------------------------- looking chunks up

  /** Where a region is at most 2 GiB, or its single chunk is within the zlib cap, the top bit
      of an entry is never taken for an offset bit. */
  lemma NotFullWidth(range: TableRange, relative: nat, compressed: bool, chunkSize: nat, nextRaw: Option<nat>,
                     final: bool)
    requires relative < U31 && range.baseOffset <= range.dataEnd < U64
    requires range.dataEnd - range.baseOffset <= U31
             || (&& relative == 0 && final && nextRaw.None?
                 && (compressed ==>
                       ZlibCap(chunkSize).Ok? && range.dataEnd - range.baseOffset <= ZlibCap(chunkSize).value))
    ensures DecodeEntry(range, relative + (if compressed then U31 else 0), chunkSize, nextRaw, final)
            == Ok(Entry(compressed, range.baseOffset + relative))
  {
    var raw := relative + (if compressed then U31 else 0);
    assert raw % U31 == relative;
  }

  lemma {:induction false} OffsetsGrow(chunks: seq<Chunk>, i: nat, j: nat)
    requires i <= j <= |chunks|
    ensures RelativeOffset(chunks, i) <= RelativeOffset(chunks, j)
    decreases j - i
  {
    if i < j { OffsetsGrow(chunks, i, j - 1); }
  }

  lemma EntryIsDecoded(chunks: seq<Chunk>, range: TableRange, i: nat, chunkSize: nat, nextRaw: Option<nat>)
    requires i < |chunks| && GroupFits(chunks)
            && (|chunks| == 1 ==> WithinCaps(chunks[0], chunkSize, range.profile) && nextRaw.None?)
    requires range.dataEnd == range.baseOffset + TotalSize(chunks) < U64
    ensures EntryValue(chunks, i) < U32
    ensures DecodeEntry(range, EntryValue(chunks, i), chunkSize, nextRaw, i + 1 == |chunks|)
            == Ok(Entry(chunks[i].compressed, range.baseOffset + RelativeOffset(chunks, i)))
  {
    hide *;
    GroupIsNarrow(chunks, i, chunkSize, range.profile);
    NotFullWidth(range, RelativeOffset(chunks, i), chunks[i].compressed, chunkSize, nextRaw, i + 1 == |chunks|);
  }

  lemma GroupIsNarrow(chunks: seq<Chunk>, i: nat, chunkSize: nat, profile: Profile)
    requires i < |chunks| && GroupFits(chunks) && (|chunks| == 1 ==> WithinCaps(chunks[0], chunkSize, profile))
    ensures RelativeOffset(chunks, i) < U31 && EntryValue(chunks, i) < U32
    ensures EntryValue(chunks, i) == RelativeOffset(chunks, i) + (if chunks[i].compressed then U31 else 0)
    ensures if |chunks| > 1 then TotalSize(chunks) <= U31
            else
              && RelativeOffset(chunks, i) == 0
              && (chunks[i].compressed ==> ZlibCap(chunkSize).Ok? && TotalSize(chunks) <= ZlibCap(chunkSize).value)
  {
    hide ZlibCap, RawCap, DoubleCap;
    OffsetsGrow(chunks, i, |chunks|);
    if |chunks| == 1 { SingleChunkGroup(chunks); }
  }

  lemma SingleChunkGroup(chunks: seq<Chunk>)
    requires |chunks| == 1
    ensures TotalSize(chunks) == |chunks[0].bytes| && RelativeOffset(chunks, 0) == 0
  {
    assert RelativeOffset(chunks, 1) == |chunks[0].bytes|;
  }

  lemma NumberIsRead(file: Bytes, offset: nat, value: nat)
    requires HoldsAt(file, offset, Le(value, 4)) && value < U32
    ensures ReadExact(file, offset, 4).Ok? && FromLe(ReadExact(file, offset, 4).value) == value
  {
    Le4RoundTrip(value);
    var b := Le(value, 4);
    assert file[offset..offset + 4] == b;
  }

  /** The reader's lookup, given what the entries and their decoding are. */
  lemma LookupResolves(file: Bytes, range: TableRange, i: nat, chunkSize: nat, raw: nat, nextRaw: Option<nat>,
                       entry: Entry, end: nat, encoding: Encoding)
    requires i < range.chunkCount && (nextRaw.Some? <==> i + 1 < range.chunkCount)
    requires ReadExact(file, range.entriesOffset + 4 * i, 4).Ok?
            && FromLe(ReadExact(file, range.entriesOffset + 4 * i, 4).value) == raw
    requires nextRaw.Some? ==>
               && ReadExact(file, range.entriesOffset + 4 * (i + 1), 4).Ok?
               && FromLe(ReadExact(file, range.entriesOffset + 4 * (i + 1), 4).value) == nextRaw.value
    requires DecodeEntry(range, raw, chunkSize, nextRaw, i + 1 == range.chunkCount) == Ok(entry)
    requires if nextRaw.Some? then NextOffset(range, nextRaw.value, chunkSize, i + 2 == range.chunkCount) == Ok(end)
            else end == range.dataEnd
    requires entry.offset < end
    requires Ewf1Encoding(entry.compressed, end - entry.offset, chunkSize, range.profile.mediaMethod) == Ok(encoding)
    requires Ewf1SizeAccepted(end - entry.offset, chunkSize, encoding, range.profile.allowLarge) == Ok(())
    ensures Lookup(file, range, i, chunkSize) == Ok(Located(entry.offset, end - entry.offset, encoding))
  {}

  /** Looking chunk `i` of a group up finds the offset, size and encoding it was written with. */
  lemma ChunkIsFound(file: Bytes, range: TableRange, chunks: seq<Chunk>, i: nat, chunkSize: nat)
    requires i < |chunks| == range.chunkCount && GroupFits(chunks)
    requires forall j | 0 <= j < |chunks| :: WithinCaps(chunks[j], chunkSize, range.profile)
    requires range.dataEnd == range.baseOffset + TotalSize(chunks) < U64
    requires HoldsAt(file, range.entriesOffset, Entries(chunks, |chunks|))
    ensures Lookup(file, range, i, chunkSize)
            == Ok(Located(range.baseOffset + RelativeOffset(chunks, i), |chunks[i].bytes|,
                          if chunks[i].compressed then ZlibData else RawData))
  {
    hide *;
    var raw := EntryValue(chunks, i);
    var nextRaw := if i + 1 < |chunks| then Some(EntryValue(chunks, i + 1)) else None;
    var start, end := range.baseOffset + RelativeOffset(chunks, i), range.baseOffset + RelativeOffset(chunks, i + 1);
    EntryIsDecoded(chunks, range, i, chunkSize, nextRaw);
    EntryIsHeld(file, range.entriesOffset, chunks, |chunks|, i);
    NumberIsRead(file, range.entriesOffset + 4 * i, raw);
    if i + 1 < |chunks| { NextIsDecoded(file, range, chunks, i, chunkSize); }
    ChunkTakesItsBytes(chunks, i);
    SizeIsAccepted(chunks[i], chunkSize, range.profile);
    LookupResolves(file, range, i, chunkSize, raw, nextRaw, Entry(chunks[i].compressed, start), end,
                   if chunks[i].compressed then ZlibData else RawData);
  }

  lemma ChunkTakesItsBytes(chunks: seq<Chunk>, i: nat)
    requires i < |chunks|
    ensures RelativeOffset(chunks, i + 1) == RelativeOffset(chunks, i) + |chunks[i].bytes|
    ensures RelativeOffset(chunks, |chunks|) == TotalSize(chunks)
  {}

  lemma NextIsDecoded(file: Bytes, range: TableRange, chunks: seq<Chunk>, i: nat, chunkSize: nat)
    requires i + 1 < |chunks| == range.chunkCount && GroupFits(chunks)
    requires range.dataEnd == range.baseOffset + TotalSize(chunks) < U64
    requires HoldsAt(file, range.entriesOffset, Entries(chunks, |chunks|))
    ensures var offset := range.entriesOffset + 4 * (i + 1);
            ReadExact(file, offset, 4).Ok? && FromLe(ReadExact(file, offset, 4).value) == EntryValue(chunks, i + 1)
    ensures NextOffset(range, EntryValue(chunks, i + 1), chunkSize, i + 2 == range.chunkCount)
            == Ok(range.baseOffset + RelativeOffset(chunks, i + 1))
  {
    EntryIsDecoded(chunks, range, i + 1, chunkSize, None);
    EntryIsHeld(file, range.entriesOffset, chunks, |chunks|, i + 1);
    NumberIsRead(file, range.entriesOffset + 4 * (i + 1), EntryValue(chunks, i + 1));
  }

  lemma SizeIsAccepted(c: Chunk, chunkSize: nat, profile: Profile)
    requires WithinCaps(c, chunkSize, profile)
    ensures |c.bytes| > 0
    ensures var encoding := if c.compressed then ZlibData else RawData;
            && Ewf1Encoding(c.compressed, |c.bytes|, chunkSize, profile.mediaMethod) == Ok(encoding)
            && Ewf1SizeAccepted(|c.bytes|, chunkSize, encoding, profile.allowLarge) == Ok(())
  {}
}
