/** The EWF1 section chain: descriptors as the writer prints them (src/writer.rs, `section_desc`)
    and as the reader walks them (src/image.rs, `scan_ewf1_sections`). */
module Ewf1Sections {
  import opened Basics

  const FILE_HEADER_SIZE: nat := 13
  const DESCRIPTOR_SIZE: nat := 76

  const DONE: Bytes := [100, 111, 110, 101]
  const NEXT: Bytes := [110, 101, 120, 116]
  const SECTORS: Bytes := [115, 101, 99, 116, 111, 114, 115]
  const TABLE: Bytes := [116, 97, 98, 108, 101]
  const TABLE2: Bytes := [116, 97, 98, 108, 101, 50]

  datatype Section = Section(kind: Bytes, next: nat, offset: nat, dataOffset: nat, dataSize: nat)
  {
    function DataEnd(): nat { dataOffset + dataSize }
  }

  // ---------------------------------------------------------------- descriptors

  predicate IsKind(kind: Bytes) {
    |kind| <= 16 && forall b <- kind :: b != 0
  }

  function DescriptorBody(kind: Bytes, next: nat, size: nat): (b: Bytes)
    requires |kind| <= 16
    ensures |b| == 72
  {
    kind + Zeros(16 - |kind|) + Le(next, 8) + Le(size, 8) + Zeros(40)
  }

  function DescriptorBytes(kind: Bytes, next: nat, size: nat): (b: Bytes)
    requires |kind| <= 16
    ensures |b| == DESCRIPTOR_SIZE
  {
    DescriptorBody(kind, next, size) + Le(Adler32(DescriptorBody(kind, next, size)), 4)
  }

  function UpToZero(b: Bytes): Bytes {
    if b == [] || b[0] == 0 then [] else [b[0]] + UpToZero(b[1..])
  }

  datatype Descriptor = Descriptor(kind: Bytes, next: nat, size: nat)

  function ParseDescriptor(b: Bytes): Descriptor
    requires |b| == DESCRIPTOR_SIZE
  {
    Descriptor(UpToZero(b[..16]), FromLe(b[16..24]), FromLe(b[24..32]))
  }

  predicate DescriptorChecksumAccepted(b: Bytes)
    requires |b| == DESCRIPTOR_SIZE
  {
    ChecksumAccepted(FromLe(b[72..76]), b[..72])
  }

  predicate IsTerminal(kind: Bytes) { kind == DONE || kind == NEXT }

  /** Section data size; a terminal section may carry size zero. */
  function DataSize(d: Descriptor): Result<nat> {
    if d.size == 0 && IsTerminal(d.kind) then Ok(0)
    else if d.size < DESCRIPTOR_SIZE then Err
    else Ok(d.size - DESCRIPTOR_SIZE)
  }

  lemma {:induction false} UpToZeroOfPadded(kind: Bytes, n: nat)
    requires forall b <- kind :: b != 0
    ensures UpToZero(kind + Zeros(n)) == kind
  {
    if kind != [] {
      assert kind[0] in kind;
      assert forall b <- kind[1..] :: b in kind;
      UpToZeroOfPadded(kind[1..], n);
      assert (kind + Zeros(n))[1..] == kind[1..] + Zeros(n);
    }
  }

  /** A printed descriptor parses back to what was printed, and its checksum is accepted. */
  lemma DescriptorRoundTrip(kind: Bytes, next: nat, size: nat)
    requires IsKind(kind) && next < U64 && size < U64
    ensures ParseDescriptor(DescriptorBytes(kind, next, size)) == Descriptor(kind, next, size)
    ensures DescriptorChecksumAccepted(DescriptorBytes(kind, next, size))
  {
    var body := DescriptorBody(kind, next, size);
    var b := DescriptorBytes(kind, next, size);
    UpToZeroOfPadded(kind, 16 - |kind|);
    assert b[..16] == kind + Zeros(16 - |kind|);
    assert b[16..24] == Le(next, 8);
    assert b[24..32] == Le(size, 8);
    Le8RoundTrip(next);
    Le8RoundTrip(size);
    assert b[..72] == body && b[72..76] == Le(Adler32(body), 4);
    Le4RoundTrip(Adler32(body));
  }

  // ---------------------------------------------------------------- the reader's walk

  /** The section whose descriptor starts at `offset`, if it is acceptable and lies in the file. */
  function SectionAt(file: Bytes, offset: nat): Result<Section> {
    if offset + DESCRIPTOR_SIZE > |file| then Err
    else
      var b := file[offset..offset + DESCRIPTOR_SIZE];
      var d := ParseDescriptor(b);
      if !DescriptorChecksumAccepted(b) || DataSize(d).Err? then Err
      else
        var section := Section(d.kind, d.next, offset, offset + DESCRIPTOR_SIZE, DataSize(d).value);
        if section.DataEnd() > |file| then Err else Ok(section)
  }

  predicate EndsChain(s: Section) { IsTerminal(s.kind) || s.next == 0 }

  /** Every section from `offset` on. */
  function ScanFrom(file: Bytes, offset: nat): (r: Result<seq<Section>>)
    decreases |file| - offset
  {
    match SectionAt(file, offset)
    case Err => Err
    case Ok(s) =>
      if EndsChain(s) then Ok([s])
      else if s.next <= offset || s.next < s.DataEnd() || s.next > |file| then Err
      else
        var rest :- ScanFrom(file, s.next);
        Ok([s] + rest)
  }

  method Scan(file: Bytes) returns (r: Result<seq<Section>>)
    ensures r == ScanFrom(file, FILE_HEADER_SIZE)
  {
    var sections, offset := [], FILE_HEADER_SIZE;
    assert ScanFrom(file, offset).Ok? ==> sections + ScanFrom(file, offset).value == ScanFrom(file, offset).value;
    while true
      invariant offset >= FILE_HEADER_SIZE
      invariant ScanFrom(file, FILE_HEADER_SIZE)
                == (if ScanFrom(file, offset).Ok? then Ok(sections + ScanFrom(file, offset).value) else Err)
      decreases |file| - offset
    {
      var section := SectionAt(file, offset);
      if section.Err? { return Err; }
      var s := section.value;
      ghost var before := sections;
      sections := sections + [s];
      if EndsChain(s) { return Ok(sections); }
      if s.next <= offset || s.next < s.DataEnd() { return Err; }
      if s.next > |file| {
        assert SectionAt(file, s.next).Err?;
        return Err;
      }
      assert ScanFrom(file, s.next).Ok? ==>
          before + ([s] + ScanFrom(file, s.next).value) == sections + ScanFrom(file, s.next).value;
      offset := s.next;
    }
  }

  /** On arbitrary bytes: accepted sections lie in the file, are ordered, and the regions that
      hold their descriptors and data are pairwise disjoint. */
  lemma {:induction false} ScannedSectionsAreDisjoint(file: Bytes, offset: nat)
    requires ScanFrom(file, offset).Ok?
    ensures var sections := ScanFrom(file, offset).value;
            && sections != [] && sections[0].offset == offset
            && (forall i | 0 <= i < |sections| ::
                  sections[i].dataOffset == sections[i].offset + DESCRIPTOR_SIZE && sections[i].DataEnd() <= |file|)
            && (forall i, j | 0 <= i < j < |sections| :: sections[i].DataEnd() <= sections[j].offset)
    decreases |file| - offset
  {
    var sections := ScanFrom(file, offset).value;
    var s := SectionAt(file, offset).value;
    if !EndsChain(s) {
      ScannedSectionsAreDisjoint(file, s.next);
      var rest := ScanFrom(file, s.next).value;
      assert sections == [s] + rest;
      forall j | 0 < j < |sections| ensures s.DataEnd() <= sections[j].offset {
        assert sections[j] == rest[j - 1];
        assert rest[0].offset == s.next;
      }
    }
  }

  // ---------------------------------------------------------------- the writer's chain

  datatype Item = Item(kind: Bytes, payload: Bytes)

  predicate Printable(items: seq<Item>) {
    forall i | 0 <= i < |items| :: IsKind(items[i].kind)
  }

  function ItemSize(item: Item): nat { DESCRIPTOR_SIZE + |item.payload| }

  /** The chain the writer emits at `start`: each descriptor links to the one after its data,
      the last one to itself. */
  function ChainBytes(items: seq<Item>, start: nat): Bytes
    requires Printable(items)
  {
    if items == [] then []
    else
      var next := if |items| == 1 then start else start + ItemSize(items[0]);
      DescriptorBytes(items[0].kind, next, ItemSize(items[0])) + items[0].payload
      + ChainBytes(items[1..], start + ItemSize(items[0]))
  }

  function ItemOffset(items: seq<Item>, start: nat, i: nat): nat
    requires i <= |items|
  {
    if i == 0 then start else ItemOffset(items, start, i - 1) + ItemSize(items[i - 1])
  }

  function PlacedSection(items: seq<Item>, start: nat, i: nat): Section
    requires i < |items|
  {
    var offset := ItemOffset(items, start, i);
    Section(items[i].kind, if i + 1 == |items| then offset else ItemOffset(items, start, i + 1), offset,
            offset + DESCRIPTOR_SIZE, |items[i].payload|)
  }

  function PlacedSections(items: seq<Item>, start: nat): seq<Section> {
    seq(|items|, i requires 0 <= i < |items| => PlacedSection(items, start, i))
  }

  ghost predicate IsChain(items: seq<Item>) {
    && items != []
    && (forall i | 0 <= i < |items| :: IsTerminal(items[i].kind) <==> i == |items| - 1)
  }

  lemma {:induction false} ItemOffsetOfTail(items: seq<Item>, start: nat, i: nat)
    requires 0 < i <= |items|
    ensures ItemOffset(items[1..], start + ItemSize(items[0]), i - 1) == ItemOffset(items, start, i)
  {
    if i > 1 { ItemOffsetOfTail(items, start, i - 1); }
  }

  lemma ChainTail(items: seq<Item>)
    requires IsChain(items) && |items| > 1
    ensures IsChain(items[1..])
  {
    assert forall i | 0 <= i < |items[1..]| :: items[1..][i] == items[i + 1];
  }

  /** The chain at `start` is in the file, and offsets fit the format's 64-bit fields. */
  ghost predicate HoldsChain(file: Bytes, items: seq<Item>, start: nat) {
    && Printable(items)
    && |file| < U64
    && HoldsAt(file, start, ChainBytes(items, start))
  }

  /** The parts of a chain are where the layout says. */
  lemma ChainHead(file: Bytes, items: seq<Item>, start: nat)
    requires HoldsChain(file, items, start) && items != []
    ensures var next := if |items| == 1 then start else start + ItemSize(items[0]);
            HoldsAt(file, start, DescriptorBytes(items[0].kind, next, ItemSize(items[0])))
    ensures HoldsAt(file, start + DESCRIPTOR_SIZE, items[0].payload)
    ensures HoldsChain(file, items[1..], start + ItemSize(items[0]))
  {
    var next := if |items| == 1 then start else start + ItemSize(items[0]);
    var descriptor := DescriptorBytes(items[0].kind, next, ItemSize(items[0]));
    var rest := ChainBytes(items[1..], start + ItemSize(items[0]));
    SplitHolds(file, start, descriptor + items[0].payload, rest);
    SplitHolds(file, start, descriptor, items[0].payload);
  }

  lemma HeadIsScanned(file: Bytes, items: seq<Item>, start: nat)
    requires HoldsChain(file, items, start) && items != []
    ensures SectionAt(file, start) == Ok(PlacedSection(items, start, 0))
  {
    ChainHead(file, items, start);
    var next := if |items| == 1 then start else start + ItemSize(items[0]);
    DescriptorRoundTrip(items[0].kind, next, ItemSize(items[0]));
    assert ItemOffset(items, start, 0) == start;
    assert |items| > 1 ==> ItemOffset(items, start, 1) == start + ItemSize(items[0]);
  }

  lemma PlacedTail(items: seq<Item>, start: nat)
    requires |items| > 1
    ensures PlacedSections(items, start)
            == [PlacedSection(items, start, 0)] + PlacedSections(items[1..], start + ItemSize(items[0]))
  {
    var next := start + ItemSize(items[0]);
    forall i | 0 < i < |items| ensures PlacedSection(items, start, i) == PlacedSection(items[1..], next, i - 1) {
      ItemOffsetOfTail(items, start, i);
      ItemOffsetOfTail(items, start, i + 1);
    }
  }

  /** Scanning what the writer wrote gives back every section where it was placed. */
  lemma {:induction false} ScanOfChain(file: Bytes, items: seq<Item>, start: nat)
    requires HoldsChain(file, items, start) && IsChain(items)
    ensures ScanFrom(file, start) == Ok(PlacedSections(items, start))
    decreases |items|
  {
    hide SectionAt, HoldsAt, DescriptorBytes;
    HeadIsScanned(file, items, start);
    var s := PlacedSection(items, start, 0);
    if |items| == 1 {
      assert PlacedSections(items, start) == [s];
    } else {
      ChainTail(items);
      ChainHead(file, items, start);
      ScanOfChain(file, items[1..], start + ItemSize(items[0]));
      PlacedTail(items, start);
      assert ItemOffset(items, start, 1) == start + ItemSize(items[0]);
    }
  }

  /** Each payload is in the file at its section's data offset. */
  lemma {:induction false} PayloadIsHeld(file: Bytes, items: seq<Item>, start: nat, i: nat)
    requires HoldsChain(file, items, start) && i < |items|
    ensures HoldsAt(file, ItemOffset(items, start, i) + DESCRIPTOR_SIZE, items[i].payload)
    decreases i
  {
    ChainHead(file, items, start);
    if i > 0 {
      PayloadIsHeld(file, items[1..], start + ItemSize(items[0]), i - 1);
      ItemOffsetOfTail(items, start, i);
    }
  }

  lemma {:induction false} ItemsAreInOrder(items: seq<Item>, start: nat, i: nat, j: nat)
    requires i < j <= |items|
    ensures ItemOffset(items, start, i) + ItemSize(items[i]) <= ItemOffset(items, start, j)
    decreases j
  {
    if j > i + 1 { ItemsAreInOrder(items, start, i, j - 1); }
  }
}
