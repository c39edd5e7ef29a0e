/** EWF2 files whose section descriptors come before their data (src/image.rs,
    `scan_ewf2_leading_sections`, `parse_ewf2_ranges`): the reader takes them though the writer
    never lays them out. */
module Ewf2Leading {
  import opened Basics
  import opened Ewf2Sections
  import opened Ewf2Tables

  /** A section with its padding; `hashed` says that the descriptor holds a digest of the payload. */
  datatype LeadingItem = LeadingItem(kind: nat, previous: nat, payload: Bytes, padding: Bytes, hashed: bool)
  {
    function Size(): nat { DESCRIPTOR_SIZE + |payload| + |padding| }
  }

  function Digest(item: LeadingItem, md5: Bytes -> Bytes): Bytes {
    if item.hashed then md5(item.payload) else Zeros(16)
  }

  function LeadingBody(item: LeadingItem, md5: Bytes -> Bytes): Bytes {
    Le(item.kind, 4) + Le(if item.hashed then 1 else 0, 4) + Le(item.previous, 8) + Le(|item.payload|, 8)
    + Le(DESCRIPTOR_SIZE, 4) + Le(|item.padding|, 4) + Digest(item, md5) + Zeros(12)
  }

  function LeadingDescriptor(item: LeadingItem, md5: Bytes -> Bytes): Bytes {
    LeadingBody(item, md5) + Le(Adler32(LeadingBody(item, md5)), 4)
  }

  function LeadingBytes(items: seq<LeadingItem>, md5: Bytes -> Bytes): Bytes {
    if items == [] then []
    else LeadingDescriptor(items[0], md5) + items[0].payload + items[0].padding + LeadingBytes(items[1..], md5)
  }

  /** The fields fit, the kind is one a reader knows and takes, and the padding is no longer than
      the data. */
  predicate IsLeadingItem(item: LeadingItem, md5: Bytes -> Bytes) {
    && IsKnown(item.kind) && item.kind != ENCRYPTION_KEYS
    && item.previous < U64 && |item.payload| < U64 && |item.padding| < U32 && |item.padding| <= |item.payload|
    && |Digest(item, md5)| == 16
  }

  ghost predicate IsLeadingChain(items: seq<LeadingItem>, md5: Bytes -> Bytes) {
    && items != []
    && forall i | 0 <= i < |items| :: IsLeadingItem(items[i], md5) && (IsTerminal(items[i].kind) <==> i == |items| - 1)
  }

  function LeadingSections(items: seq<LeadingItem>, offset: nat): seq<Section> {
    if items == [] then []
    else
      [Section(items[0].kind, offset, offset + DESCRIPTOR_SIZE, |items[0].payload|, true)]
      + LeadingSections(items[1..], offset + items[0].Size())
  }

  lemma LeadingFields(item: LeadingItem, md5: Bytes -> Bytes)
    requires |Digest(item, md5)| == 16
    ensures var b := LeadingDescriptor(item, md5);
            && |b| == DESCRIPTOR_SIZE && |LeadingBody(item, md5)| == 60
            && b[..4] == Le(item.kind, 4) && b[4..8] == Le(if item.hashed then 1 else 0, 4)
            && b[8..16] == Le(item.previous, 8) && b[16..24] == Le(|item.payload|, 8)
            && b[24..28] == Le(DESCRIPTOR_SIZE, 4) && b[28..32] == Le(|item.padding|, 4)
            && b[32..48] == Digest(item, md5)
            && b[..60] == LeadingBody(item, md5) && b[60..64] == Le(Adler32(LeadingBody(item, md5)), 4)
  {
    hide Adler32, Le, Digest;
  }

  /** A leading descriptor parses back, padding and digest included. */
  lemma LeadingDescriptorRoundTrip(item: LeadingItem, md5: Bytes -> Bytes)
    requires IsLeadingItem(item, md5)
    ensures var b := LeadingDescriptor(item, md5);
            && |b| == DESCRIPTOR_SIZE && ChecksumHolds(b)
            && ParseDescriptor(b) == Descriptor(item.kind, if item.hashed then 1 else 0, item.previous, |item.payload|,
                                                DESCRIPTOR_SIZE, |item.padding|, Digest(item, md5))
  {
    LeadingFields(item, md5);
    hide Adler32, LeadingBody, LeadingDescriptor, Le, Digest;
    Le4RoundTrip(item.kind);
    Le4RoundTrip(if item.hashed then 1 else 0);
    Le8RoundTrip(item.previous);
    Le8RoundTrip(|item.payload|);
    Le4RoundTrip(DESCRIPTOR_SIZE);
    Le4RoundTrip(|item.padding|);
    Le4RoundTrip(Adler32(LeadingBody(item, md5)));
  }

  /** One step of the scan, over a section whose bytes are there. */
  lemma LeadingStep(file: Bytes, offset: nat, item: LeadingItem, any: bool, rules: Rules)
    requires IsLeadingItem(item, rules.md5) && |file| < U64
    requires HoldsAt(file, offset, LeadingDescriptor(item, rules.md5))
    requires HoldsAt(file, offset + DESCRIPTOR_SIZE, item.payload) && offset + item.Size() <= |file|
    ensures var section := Section(item.kind, offset, offset + DESCRIPTOR_SIZE, |item.payload|, true);
            LeadingFrom(file, offset, any, rules)
            == if IsTerminal(item.kind) then Sections([section])
               else
                 match LeadingFrom(file, offset + item.Size(), true, rules)
                 case Sections(rest) => Sections([section] + rest)
                 case _ => Refused
  {
    LeadingDescriptorRoundTrip(item, rules.md5);
    hide ParseDescriptor, ChecksumHolds, LeadingDescriptor, IsKnown, IsTerminal;
    var b := LeadingDescriptor(item, rules.md5);
    assert file[offset..offset + DESCRIPTOR_SIZE] == b;
    assert file[offset + DESCRIPTOR_SIZE..offset + DESCRIPTOR_SIZE + |item.payload|] == item.payload;
  }

  /** A chain of leading sections, with padding and digests, scans back to its sections. */
  lemma {:induction false} LeadingChainIsScanned(file: Bytes, offset: nat, items: seq<LeadingItem>, any: bool,
                                                  rules: Rules)
    requires IsLeadingChain(items, rules.md5) && |file| < U64
    requires HoldsAt(file, offset, LeadingBytes(items, rules.md5))
    ensures LeadingFrom(file, offset, any, rules) == Sections(LeadingSections(items, offset))
    decreases |items|
  {
    hide LeadingFrom, LeadingDescriptor, HoldsAt, IsTerminal;
    var item, rest := items[0], items[1..];
    LeadingDescriptorRoundTrip(item, rules.md5);
    ItemIsHeld(file, offset, items, rules.md5);
    LeadingStep(file, offset, item, any, rules);
    if rest != [] {
      LeadingChainIsScanned(file, offset + item.Size(), rest, true, rules);
    }
  }

  lemma ItemIsHeld(file: Bytes, offset: nat, items: seq<LeadingItem>, md5: Bytes -> Bytes)
    requires items != [] && IsLeadingItem(items[0], md5) && HoldsAt(file, offset, LeadingBytes(items, md5))
    ensures HoldsAt(file, offset, LeadingDescriptor(items[0], md5))
    ensures HoldsAt(file, offset + DESCRIPTOR_SIZE, items[0].payload)
    ensures offset + items[0].Size() <= |file|
    ensures HoldsAt(file, offset + items[0].Size(), LeadingBytes(items[1..], md5))
  {
    LeadingFields(items[0], md5);
    hide LeadingDescriptor, LeadingBody, IsLeadingItem;
    var b := LeadingDescriptor(items[0], md5);
    SplitHolds(file, offset, b + items[0].payload + items[0].padding, LeadingBytes(items[1..], md5));
    SplitThree(file, offset, b, items[0].payload, items[0].padding);
  }

  /** So does the file that starts with it, whatever follows. */
  lemma LeadingFileIsScanned(file: Bytes, items: seq<LeadingItem>, rules: Rules)
    requires IsLeadingChain(items, rules.md5) && |file| < U64
    requires HoldsAt(file, FILE_HEADER_SIZE, LeadingBytes(items, rules.md5))
    ensures Scan(file, rules) == Ok(LeadingSections(items, FILE_HEADER_SIZE))
  {
    ItemIsHeld(file, FILE_HEADER_SIZE, items, rules.md5);
    hide LeadingFrom, LeadingBytes, HoldsAt, TrailingUpTo;
    LeadingChainIsScanned(file, FILE_HEADER_SIZE, items, false, rules);
  }

  // ---------------------------------------------------------------- table headers

  /** The fields a reader takes from a table header of either size. */
  predicate HeaderSays(header: Bytes, firstChunk: nat, count: nat) {
    && (|header| == SHORT_HEADER_SIZE || |header| == HEADER_SIZE)
    && FromLe(header[..8]) == firstChunk && FromLe(header[8..12]) == count
    && ChecksumAccepted(FromLe(header[16..20]), header[..16])
  }

  /** A checksum of the entries is there only when a whole footer is, and may be zero. */
  predicate FooterSays(rest: Bytes, entries: Bytes) {
    |rest| >= FOOTER_SIZE ==> ChecksumAccepted(FromLe(rest[..4]), entries)
  }

  lemma HeaderIsRead(file: Bytes, s: Section, header: Bytes, body: Bytes, firstChunk: nat, count: nat)
    requires HoldsAt(file, s.dataOffset, header + body) && s.dataSize == |header + body| && s.leading
    requires HeaderSays(header, firstChunk, count)
    ensures TableHeader(file, s) == Ok((firstChunk, count))
  {
    hide FromLe, ChecksumAccepted;
    var data := file[s.dataOffset..s.dataOffset + if s.dataSize >= HEADER_SIZE then HEADER_SIZE else SHORT_HEADER_SIZE];
    var whole := header + body;
    assert file[s.dataOffset..s.dataOffset + s.dataSize] == whole;
    assert data == whole[..|data|];
    assert whole[..20] == header[..20];
    assert data[..20] == header[..20];
    assert data[..20][..8] == data[..8] && data[..20][8..12] == data[8..12] && data[..20][16..20] == data[16..20]
        && data[..20][..16] == data[..16];
    assert data[..8] == header[..8] && data[8..12] == header[8..12] && data[16..20] == header[16..20]
        && data[..16] == header[..16];
  }

  lemma FullHeaderIsParsed(file: Bytes, s: Section, header: Bytes, entries: Bytes, rest: Bytes, firstChunk: nat,
                           count: nat)
    requires s.kind == SECTOR_TABLE && s.leading && s.dataSize == |header + (entries + rest)|
    requires HoldsAt(file, s.dataOffset, header + (entries + rest)) && HeaderSays(header, firstChunk, count)
    requires |entries| == ENTRY_SIZE * count && count > 0 && |header| == HEADER_SIZE && FooterSays(rest, entries)
    ensures ParseSection(file, s) == Ok(Some(TableRange(firstChunk, count, s.dataOffset + HEADER_SIZE)))
    ensures HoldsAt(file, s.dataOffset + HEADER_SIZE, entries)
  {
    HeaderIsRead(file, s, header, entries + rest, firstChunk, count);
    SplitHolds(file, s.dataOffset, header, entries + rest);
    SplitHolds(file, s.dataOffset + HEADER_SIZE, entries, rest);
    hide FromLe, Adler32, TableHeader, HeaderSays;
    var end := s.dataOffset + HEADER_SIZE + |entries|;
    assert file[s.dataOffset + HEADER_SIZE..end] == entries;
    if |rest| >= FOOTER_SIZE {
      assert rest[..4] + rest[4..] == rest;
      SplitHolds(file, end, rest[..4], rest[4..]);
      assert ReadExact(file, end, 4) == Ok(rest[..4]);
    }
  }

  /** With a short header the entries are read where they are exactly when fewer than twelve bytes
      follow them: a footer makes the reader take the short header for a long one. */
  lemma ShortHeaderIsParsedExactlyWhen(file: Bytes, s: Section, header: Bytes, entries: Bytes, rest: Bytes,
                                       firstChunk: nat, count: nat)
    requires s.kind == SECTOR_TABLE && s.leading && s.dataSize == |header + (entries + rest)|
    requires HoldsAt(file, s.dataOffset, header + (entries + rest)) && HeaderSays(header, firstChunk, count)
    requires |entries| == ENTRY_SIZE * count && count > 0 && |header| == SHORT_HEADER_SIZE
    ensures ParseSection(file, s) == Ok(Some(TableRange(firstChunk, count, s.dataOffset + SHORT_HEADER_SIZE)))
            <==> |rest| < 12
    ensures HoldsAt(file, s.dataOffset + SHORT_HEADER_SIZE, entries)
  {
    HeaderIsRead(file, s, header, entries + rest, firstChunk, count);
    SplitHolds(file, s.dataOffset, header, entries + rest);
    SplitHolds(file, s.dataOffset + SHORT_HEADER_SIZE, entries, rest);
    hide FromLe, Adler32, TableHeader, HeaderSays;
  }

  /** One entry and a footer after a short header: the entry is looked for twelve bytes too late. */
  lemma FooterHidesShortHeader(file: Bytes, s: Section, header: Bytes, entry: Bytes, footer: Bytes, firstChunk: nat)
    requires s.kind == SECTOR_TABLE && s.leading && s.dataSize == |header + (entry + footer)|
    requires HoldsAt(file, s.dataOffset, header + (entry + footer)) && HeaderSays(header, firstChunk, 1)
    requires |header| == SHORT_HEADER_SIZE && |entry| == ENTRY_SIZE && |footer| == FOOTER_SIZE
    ensures ParseSection(file, s) == Ok(Some(TableRange(firstChunk, 1, s.dataOffset + SHORT_HEADER_SIZE + 12)))
  {
    HeaderIsRead(file, s, header, entry + footer, firstChunk, 1);
    hide FromLe, Adler32, TableHeader, HeaderSays;
  }
}
