/** EWF2 sections: the leading and trailing scans of the reader (src/image.rs,
    `scan_ewf2_sections`) and the chain the writer plans (src/writer.rs, `plan_ewf2_section`). */
module Ewf2Sections {
  import opened Basics

  const FILE_HEADER_SIZE: nat := 32
  const DESCRIPTOR_SIZE: nat := 64

  const SECTOR_DATA: nat := 0x03
  const SECTOR_TABLE: nat := 0x04
  const ENCRYPTION_KEYS: nat := 0x0b
  const NEXT: nat := 0x0d
  const DONE: nat := 0x0f

  /** `SectionType::from` knows these type numbers. */
  predicate IsKnown(kind: nat) {
    0x01 <= kind <= 0x10 || 0x20 <= kind <= 0x23
  }

  datatype Section = Section(kind: nat, offset: nat, dataOffset: nat, dataSize: nat, leading: bool)
  {
    function DataEnd(): nat { dataOffset + dataSize }
  }

  datatype Descriptor = Descriptor(kind: nat, flags: nat, previous: nat, dataSize: nat, size: nat, padding: nat,
                                   hash: Bytes)

  /** How strictly to read, and the digest that integrity hashes use. */
  datatype Rules = Rules(strict: bool, md5: Bytes -> Bytes)

  function ParseDescriptor(b: Bytes): Descriptor
    requires |b| == DESCRIPTOR_SIZE
  {
    Descriptor(FromLe(b[..4]), FromLe(b[4..8]), FromLe(b[8..16]), FromLe(b[16..24]), FromLe(b[24..28]),
               FromLe(b[28..32]), b[32..48])
  }

  predicate HasIntegrityHash(d: Descriptor) { d.flags % 2 == 1 }
  predicate IsEncrypted(d: Descriptor) { d.kind == ENCRYPTION_KEYS || d.flags / 2 % 2 == 1 }
  predicate IsTerminal(kind: nat) { kind == DONE || kind == NEXT }

  predicate IsValid(d: Descriptor, rules: Rules) {
    d.size == DESCRIPTOR_SIZE && (!rules.strict || IsKnown(d.kind))
  }

  predicate ChecksumHolds(b: Bytes)
    requires |b| == DESCRIPTOR_SIZE
  {
    ChecksumAccepted(FromLe(b[60..64]), b[..60])
  }

  /** `reject_encrypted_ewf2_section` and `validate_ewf2_section_integrity_hash` */
  predicate DataIsAccepted(file: Bytes, d: Descriptor, dataOffset: nat, rules: Rules)
    requires dataOffset + d.dataSize <= |file|
  {
    !IsEncrypted(d) && (HasIntegrityHash(d) ==> rules.md5(file[dataOffset..dataOffset + d.dataSize]) == d.hash)
  }

  // ---------------------------------------------------------------- trailing layout

  /** Data sits between the previous descriptor, or the file header, and its own descriptor. */
  function TrailingDataOffset(d: Descriptor): nat {
    if d.previous == 0 then FILE_HEADER_SIZE else d.previous + DESCRIPTOR_SIZE
  }

  /** The section whose descriptor is at `offset`, and where the one before it is. */
  function TrailingAt(file: Bytes, offset: nat, rules: Rules): (r: Result<(Section, nat)>)
    ensures r.Ok? ==> r.value.0.offset == offset && r.value.0.DataEnd() <= offset
    ensures r.Ok? && r.value.1 != 0 ==> r.value.1 + DESCRIPTOR_SIZE == r.value.0.dataOffset
  {
    var b :- ReadExact(file, offset, DESCRIPTOR_SIZE);
    var d := ParseDescriptor(b);
    if !IsValid(d, rules) || !ChecksumHolds(b) || d.padding > d.dataSize then Err
    else if TrailingDataOffset(d) + d.dataSize > offset then Err
    else if d.previous != 0 && d.previous >= offset then Err
    else if !DataIsAccepted(file, d, TrailingDataOffset(d), rules) then Err
    else Ok((Section(d.kind, offset, TrailingDataOffset(d), d.dataSize, false), d.previous))
  }

  /** Every section up to the one described at `offset`, in file order. */
  function TrailingUpTo(file: Bytes, offset: nat, rules: Rules): Result<seq<Section>>
    decreases offset
  {
    var at :- TrailingAt(file, offset, rules);
    if at.1 == 0 then Ok([at.0])
    else
      var before :- TrailingUpTo(file, at.1, rules);
      Ok(before + [at.0])
  }

  function Reversed(s: seq<Section>): (r: seq<Section>)
    ensures |r| == |s|
  {
    if s == [] then [] else Reversed(s[1..]) + [s[0]]
  }

  lemma {:induction false} ReversedGrows(s: seq<Section>, x: Section)
    ensures Reversed(s + [x]) == [x] + Reversed(s)
  {
    if s != [] {
      assert (s + [x])[1..] == s[1..] + [x];
      ReversedGrows(s[1..], x);
    } else {
      assert ([x])[1..] == [];
    }
  }

  /** `scan_ewf2_trailing_sections`. Its bound on the number of sections is never met: each one
      takes at least a descriptor, so the error after the loop is unreachable. */
  method ScanTrailing(file: Bytes, rules: Rules) returns (r: Result<seq<Section>>)
    requires |file| >= FILE_HEADER_SIZE + DESCRIPTOR_SIZE
    ensures r == TrailingUpTo(file, |file| - DESCRIPTOR_SIZE, rules)
  {
    var sections, offset: nat := [], |file| - DESCRIPTOR_SIZE;
    var maximum := (|file| - FILE_HEADER_SIZE) / DESCRIPTOR_SIZE + 1;
    var n, more := 0, true;
    r := Err;
    assert TrailingUpTo(file, offset, rules).Ok? ==>
        TrailingUpTo(file, offset, rules).value + Reversed([]) == TrailingUpTo(file, offset, rules).value;
    while more && n < maximum
      invariant more ==> offset + DESCRIPTOR_SIZE * (n + 1) <= |file|
      invariant n > 0 && more ==> offset > 0
      invariant more ==> TrailingUpTo(file, |file| - DESCRIPTOR_SIZE, rules)
                         == (if TrailingUpTo(file, offset, rules).Ok?
                             then Ok(TrailingUpTo(file, offset, rules).value + Reversed(sections)) else Err)
      invariant !more ==> r == TrailingUpTo(file, |file| - DESCRIPTOR_SIZE, rules)
      invariant more ==> n < maximum && r == Err
      decreases maximum - n, more
    {
      var at := TrailingAt(file, offset, rules);
      if at.Err? {
        more := false;
      } else {
        ReversedGrows(sections, at.value.0);
        sections := sections + [at.value.0];
        if at.value.1 == 0 {
          r := Ok(Reversed(sections));
          more := false;
        } else {
          PrependIsKept(file, offset, rules, sections);
          offset := at.value.1;
          n := n + 1;
        }
      }
    }
    assert !more;
  }

  lemma PrependIsKept(file: Bytes, offset: nat, rules: Rules, sections: seq<Section>)
    requires sections != [] && TrailingAt(file, offset, rules).Ok? && TrailingAt(file, offset, rules).value.1 != 0
    requires sections[|sections| - 1] == TrailingAt(file, offset, rules).value.0
    ensures var previous := TrailingAt(file, offset, rules).value.1;
            var before, up := TrailingUpTo(file, previous, rules), TrailingUpTo(file, offset, rules);
            && up.Ok? == before.Ok?
            && (up.Ok? ==> up.value + Reversed(sections[..|sections| - 1]) == before.value + Reversed(sections))
  {
    hide TrailingAt, Reversed;
    var init, x := sections[..|sections| - 1], sections[|sections| - 1];
    assert sections == init + [x];
    ReversedGrows(init, x);
    UpToPrevious(file, offset, rules);
    var before := TrailingUpTo(file, TrailingAt(file, offset, rules).value.1, rules);
    if before.Ok? { assert before.value + ([x] + Reversed(init)) == (before.value + [x]) + Reversed(init); }
  }

  lemma UpToPrevious(file: Bytes, offset: nat, rules: Rules)
    requires TrailingAt(file, offset, rules).Ok? && TrailingAt(file, offset, rules).value.1 != 0
    ensures var at := TrailingAt(file, offset, rules).value;
            var before, up := TrailingUpTo(file, at.1, rules), TrailingUpTo(file, offset, rules);
            up == if before.Ok? then Ok(before.value + [at.0]) else Err
  {
    hide TrailingAt;
  }

  /** On arbitrary bytes: the data of each section precedes its descriptor, and the regions of
      data and descriptor are disjoint and in order. */
  lemma {:induction false} TrailingSectionsAreDisjoint(file: Bytes, offset: nat, rules: Rules)
    requires TrailingUpTo(file, offset, rules).Ok?
    ensures var s := TrailingUpTo(file, offset, rules).value;
            && s != [] && s[|s| - 1].offset == offset && s[0].dataOffset == FILE_HEADER_SIZE
            && offset + DESCRIPTOR_SIZE <= |file|
            && (forall i | 0 <= i < |s| :: s[i].DataEnd() <= s[i].offset)
            && (forall i | 0 <= i < |s| - 1 :: s[i].offset + DESCRIPTOR_SIZE == s[i + 1].dataOffset)
    decreases offset
  {
    var at := TrailingAt(file, offset, rules).value;
    if at.1 != 0 {
      TrailingSectionsAreDisjoint(file, at.1, rules);
      var before := TrailingUpTo(file, at.1, rules).value;
      var s := TrailingUpTo(file, offset, rules).value;
      assert s == before + [at.0];
      forall i | 0 <= i < |s| - 1 ensures s[i].offset + DESCRIPTOR_SIZE == s[i + 1].dataOffset {
        if i < |before| - 1 { assert s[i + 1] == before[i + 1]; }
      }
    }
  }

  // ---------------------------------------------------------------- leading layout

  /** `Declined`: the bytes do not start with a leading descriptor, so the other layout is tried. */
  datatype Leading = Declined | Refused | Sections(sections: seq<Section>)

  /** `scan_ewf2_leading_sections`, from a descriptor at `offset` on; `any` says whether a
      section has been accepted before. */
  function LeadingFrom(file: Bytes, offset: nat, any: bool, rules: Rules): Leading
    decreases |file| - offset
  {
    var decline := if any then Refused else Declined;
    if offset + DESCRIPTOR_SIZE > |file| then decline
    else
      var b := file[offset..offset + DESCRIPTOR_SIZE];
      var d := ParseDescriptor(b);
      if !IsValid(d, rules) then decline
      else if !ChecksumHolds(b) then Refused
      else
        var dataOffset := offset + DESCRIPTOR_SIZE;
        var next := dataOffset + d.dataSize + d.padding;
        if dataOffset + d.dataSize >= U64 then Refused
        else if dataOffset + d.dataSize > |file| then decline
        else if d.padding > d.dataSize || next > |file| || !DataIsAccepted(file, d, dataOffset, rules) then Refused
        else
          var section := Section(d.kind, offset, dataOffset, d.dataSize, true);
          if IsTerminal(d.kind) then Sections([section])
          else
            match LeadingFrom(file, next, true, rules)
            case Sections(rest) => Sections([section] + rest)
            case _ => Refused
  }

  /** On arbitrary bytes: each descriptor precedes its data, and the regions are disjoint, in
      order and in the file. */
  lemma {:induction false} LeadingSectionsAreDisjoint(file: Bytes, offset: nat, any: bool, rules: Rules)
    requires LeadingFrom(file, offset, any, rules).Sections?
    ensures var s := LeadingFrom(file, offset, any, rules).sections;
            && s != [] && s[0].offset == offset && IsTerminal(s[|s| - 1].kind)
            && (forall i | 0 <= i < |s| :: s[i].dataOffset == s[i].offset + DESCRIPTOR_SIZE && s[i].DataEnd() <= |file|)
            && (forall i | 0 <= i < |s| - 1 :: s[i].DataEnd() <= s[i + 1].offset && !IsTerminal(s[i].kind))
    decreases |file| - offset
  {
    hide ParseDescriptor, ChecksumHolds, DataIsAccepted, IsValid, IsTerminal;
    var s := LeadingFrom(file, offset, any, rules).sections;
    if |s| > 1 {
      var d := ParseDescriptor(file[offset..offset + DESCRIPTOR_SIZE]);
      var next := offset + DESCRIPTOR_SIZE + d.dataSize + d.padding;
      LeadingSectionsAreDisjoint(file, next, true, rules);
      var rest := LeadingFrom(file, next, true, rules).sections;
      assert s == [s[0]] + rest;
      forall i | 0 <= i < |s| - 1 ensures s[i].DataEnd() <= s[i + 1].offset && !IsTerminal(s[i].kind) {
        if i > 0 { assert s[i] == rest[i - 1] && s[i + 1] == rest[i]; }
      }
    }
  }

  /** `scan_ewf2_sections` */
  function Scan(file: Bytes, rules: Rules): Result<seq<Section>> {
    if |file| < FILE_HEADER_SIZE + DESCRIPTOR_SIZE then Err
    else
      match LeadingFrom(file, FILE_HEADER_SIZE, false, rules)
      case Sections(s) => Ok(s)
      case Refused => Err
      case Declined => TrailingUpTo(file, |file| - DESCRIPTOR_SIZE, rules)
  }

  // ---------------------------------------------------------------- the writer's chain

  datatype Item = Item(kind: nat, payload: Bytes)

  function DescriptorBody(kind: nat, previous: nat, dataSize: nat): (b: Bytes)
    ensures |b| == 60
  {
    Le(kind, 4) + Zeros(4) + Le(previous, 8) + Le(dataSize, 8) + Le(DESCRIPTOR_SIZE, 4) + Zeros(32)
  }

  /** `ewf2_section_desc` */
  function DescriptorBytes(kind: nat, previous: nat, dataSize: nat): (b: Bytes)
    ensures |b| == DESCRIPTOR_SIZE
  {
    DescriptorBody(kind, previous, dataSize) + Le(Adler32(DescriptorBody(kind, previous, dataSize)), 4)
  }

  /** Where the data of item `i` goes. */
  function DataOffset(items: seq<Item>, i: nat): nat
    requires i <= |items|
  {
    if i == 0 then FILE_HEADER_SIZE else DataOffset(items, i - 1) + |items[i - 1].payload| + DESCRIPTOR_SIZE
  }

  function DescriptorOffset(items: seq<Item>, i: nat): nat
    requires i < |items|
  {
    DataOffset(items, i) + |items[i].payload|
  }

  /** What the descriptor of item `i` says of the one before it. */
  function PreviousOffset(items: seq<Item>, i: nat): nat
    requires i < |items|
  {
    if i == 0 then 0 else DescriptorOffset(items, i - 1)
  }

  datatype Plan = Plan(dataOffset: nat, previous: nat)

  /** `plan_ewf2_section` for every section in turn. */
  method PlanSections(items: seq<Item>) returns (r: Result<seq<Plan>>)
    ensures r.Ok? <==> DataOffset(items, |items|) < U64
    ensures r.Ok? ==>
              && |r.value| == |items|
              && forall i | 0 <= i < |items| :: r.value[i] == Plan(DataOffset(items, i), PreviousOffset(items, i))
  {
    var plans, current, previous := [], FILE_HEADER_SIZE, 0;
    for i := 0 to |items|
      invariant |plans| == i && current == DataOffset(items, i) < U64
      invariant previous == if i == 0 then 0 else DescriptorOffset(items, i - 1)
      invariant forall j | 0 <= j < i :: plans[j] == Plan(DataOffset(items, j), PreviousOffset(items, j))
    {
      OffsetsGrow(items, i + 1, |items|);
      var descriptor := current + |items[i].payload|;
      if descriptor + DESCRIPTOR_SIZE >= U64 { return Err; }
      plans := plans + [Plan(current, previous)];
      current, previous := descriptor + DESCRIPTOR_SIZE, descriptor;
    }
    return Ok(plans);
  }

  lemma {:induction false} OffsetsGrow(items: seq<Item>, i: nat, j: nat)
    requires i <= j <= |items|
    ensures DataOffset(items, i) <= DataOffset(items, j)
    decreases j - i
  {
    if i < j { OffsetsGrow(items, i, j - 1); }
  }

  /** The bytes of the first `n` sections: each payload and then its descriptor. */
  function ChainBytes(items: seq<Item>, n: nat): (b: Bytes)
    requires n <= |items|
    ensures |b| == DataOffset(items, n) - FILE_HEADER_SIZE
  {
    if n == 0 then []
    else ChainBytes(items, n - 1) + items[n - 1].payload
         + DescriptorBytes(items[n - 1].kind, PreviousOffset(items, n - 1), |items[n - 1].payload|)
  }

  predicate IsItem(item: Item) { IsKnown(item.kind) && item.kind != ENCRYPTION_KEYS }

  /** The file is a header and the chain of `items`. */
  ghost predicate IsChainFile(file: Bytes, items: seq<Item>) {
    && items != [] && |file| < U64
    && (forall i | 0 <= i < |items| :: IsItem(items[i]))
    && |file| >= FILE_HEADER_SIZE && file[FILE_HEADER_SIZE..] == ChainBytes(items, |items|)
  }

  lemma DescriptorRoundTrip(kind: nat, previous: nat, dataSize: nat)
    requires kind < U32 && previous < U64 && dataSize < U64
    ensures var b := DescriptorBytes(kind, previous, dataSize);
            && ParseDescriptor(b).(hash := []) == Descriptor(kind, 0, previous, dataSize, DESCRIPTOR_SIZE, 0, [])
            && ChecksumHolds(b)
  {
    var body, b := DescriptorBody(kind, previous, dataSize), DescriptorBytes(kind, previous, dataSize);
    DescriptorFields(kind, previous, dataSize);
    hide Adler32, DescriptorBody, Le;
    Le4RoundTrip(kind);
    Le8RoundTrip(previous);
    Le8RoundTrip(dataSize);
    Le4RoundTrip(DESCRIPTOR_SIZE);
    ZeroIsZero();
    assert b[..60] == body && b[60..64] == Le(Adler32(body), 4);
    Le4RoundTrip(Adler32(body));
  }

  lemma DescriptorFields(kind: nat, previous: nat, dataSize: nat)
    ensures var b := DescriptorBytes(kind, previous, dataSize);
            && b[..4] == Le(kind, 4) && b[4..8] == Zeros(4) && b[8..16] == Le(previous, 8)
            && b[16..24] == Le(dataSize, 8) && b[24..28] == Le(DESCRIPTOR_SIZE, 4) && b[28..32] == Zeros(4)
  {
    hide Adler32, Le;
  }

  lemma ZeroIsZero()
    ensures FromLe(Zeros(4)) == 0
  {
    assert Zeros(4) == [0, 0, 0, 0];
    assert Zeros(4)[1..] == [0, 0, 0];
    assert [0, 0, 0][1..] == [0, 0];
    assert [0, 0][1..] == [0];
  }

  /** Each payload, and after it its descriptor, is where the plan says. */
  lemma {:induction false} SectionsAreHeld(file: Bytes, items: seq<Item>, n: nat, i: nat)
    requires i < n <= |items| && HoldsAt(file, FILE_HEADER_SIZE, ChainBytes(items, n))
    ensures HoldsAt(file, DataOffset(items, i), items[i].payload)
    ensures HoldsAt(file, DescriptorOffset(items, i),
                    DescriptorBytes(items[i].kind, PreviousOffset(items, i), |items[i].payload|))
    decreases n
  {
    hide DescriptorBytes, HoldsAt;
    SplitThree(file, FILE_HEADER_SIZE, ChainBytes(items, n - 1), items[n - 1].payload,
               DescriptorBytes(items[n - 1].kind, PreviousOffset(items, n - 1), |items[n - 1].payload|));
    if i < n - 1 { SectionsAreHeld(file, items, n - 1, i); }
  }

  lemma ChainIsHeld(file: Bytes, items: seq<Item>)
    requires IsChainFile(file, items)
    ensures HoldsAt(file, FILE_HEADER_SIZE, ChainBytes(items, |items|)) && |file| == DataOffset(items, |items|)
  {
    hide ChainBytes, DataOffset, IsItem;
    var chain := ChainBytes(items, |items|);
    assert |file| == FILE_HEADER_SIZE + |chain|;
    assert file[FILE_HEADER_SIZE..FILE_HEADER_SIZE + |chain|] == chain;
  }

  function PlacedSection(items: seq<Item>, i: nat): Section
    requires i < |items|
  {
    Section(items[i].kind, DescriptorOffset(items, i), DataOffset(items, i), |items[i].payload|, false)
  }

  function PlacedSections(items: seq<Item>, n: nat): (s: seq<Section>)
    requires n <= |items|
    ensures |s| == n && forall i | 0 <= i < n :: s[i] == PlacedSection(items, i)
  {
    seq(n, i requires 0 <= i < n => PlacedSection(items, i))
  }

  lemma PreviousIsBefore(items: seq<Item>, i: nat)
    requires i < |items|
    ensures PreviousOffset(items, i) != 0 <==> i > 0
    ensures DataOffset(items, i) == if PreviousOffset(items, i) == 0 then FILE_HEADER_SIZE
            else PreviousOffset(items, i) + DESCRIPTOR_SIZE
    ensures DescriptorOffset(items, i) < DataOffset(items, i + 1) <= DataOffset(items, |items|)
  {
    OffsetsGrow(items, i + 1, |items|);
    OffsetsGrow(items, 0, if i == 0 then 0 else i - 1);
  }

  /** The reader's step at a planned descriptor. */
  lemma SectionIsScanned(file: Bytes, items: seq<Item>, i: nat, rules: Rules)
    requires IsChainFile(file, items) && i < |items|
    ensures TrailingAt(file, DescriptorOffset(items, i), rules)
            == Ok((PlacedSection(items, i), PreviousOffset(items, i)))
  {
    hide DescriptorBytes, ChainBytes, DataOffset, PreviousOffset;
    ChainIsHeld(file, items);
    SectionsAreHeld(file, items, |items|, i);
    PreviousIsBefore(items, i);
    DescriptorRoundTrip(items[i].kind, PreviousOffset(items, i), |items[i].payload|);
    DescriptorIsScanned(file, DescriptorOffset(items, i), items[i].kind, PreviousOffset(items, i), |items[i].payload|,
                        DescriptorBytes(items[i].kind, PreviousOffset(items, i), |items[i].payload|), rules);
  }

  lemma DescriptorIsScanned(file: Bytes, offset: nat, kind: nat, previous: nat, dataSize: nat, b: Bytes, rules: Rules)
    requires HoldsAt(file, offset, b) && |b| == DESCRIPTOR_SIZE && ChecksumHolds(b)
    requires ParseDescriptor(b).(hash := []) == Descriptor(kind, 0, previous, dataSize, DESCRIPTOR_SIZE, 0, [])
    requires IsKnown(kind) && kind != ENCRYPTION_KEYS
    requires (if previous == 0 then FILE_HEADER_SIZE else previous + DESCRIPTOR_SIZE) + dataSize == offset
    ensures TrailingAt(file, offset, rules)
            == Ok((Section(kind, offset, if previous == 0 then FILE_HEADER_SIZE else previous + DESCRIPTOR_SIZE,
                           dataSize, false), previous))
  {
    hide ParseDescriptor, ChecksumHolds;
    assert ReadExact(file, offset, DESCRIPTOR_SIZE) == Ok(b);
  }

  /** Scanning backward what the writer wrote gives its sections in the order written, with
      the planned offsets and sizes. */
  lemma {:induction false} ChainIsScanned(file: Bytes, items: seq<Item>, i: nat, rules: Rules)
    requires IsChainFile(file, items) && i < |items|
    ensures TrailingUpTo(file, DescriptorOffset(items, i), rules) == Ok(PlacedSections(items, i + 1))
  {
    hide TrailingAt, IsChainFile, DescriptorOffset, PreviousOffset, PlacedSection;
    SectionIsScanned(file, items, i, rules);
    PreviousIsBefore(items, i);
    PreviousIs(items, i);
    if i > 0 {
      ChainIsScanned(file, items, i - 1, rules);
      assert PlacedSections(items, i + 1) == PlacedSections(items, i) + [PlacedSection(items, i)];
    } else {
      assert PlacedSections(items, 1) == [PlacedSection(items, 0)];
    }
  }

  lemma PreviousIs(items: seq<Item>, i: nat)
    requires i < |items|
    ensures PreviousOffset(items, i) == if i == 0 then 0 else DescriptorOffset(items, i - 1)
  {}

  lemma FirstLeads(file: Bytes, offset: nat, rules: Rules)
    requires LeadingFrom(file, offset, false, rules).Sections?
    ensures var s := LeadingFrom(file, offset, false, rules).sections; s != [] && s[0].leading
  {}

  /** A written chain is scanned back exactly when the probe for the leading layout declines. */
  lemma WrittenFileIsScanned(file: Bytes, items: seq<Item>, rules: Rules)
    requires IsChainFile(file, items)
    ensures Scan(file, rules) == Ok(PlacedSections(items, |items|))
            <==> LeadingFrom(file, FILE_HEADER_SIZE, false, rules).Declined?
  {
    hide LeadingFrom, TrailingUpTo, ChainBytes;
    var leading := LeadingFrom(file, FILE_HEADER_SIZE, false, rules);
    if leading.Sections? {
      FirstLeads(file, FILE_HEADER_SIZE, rules);
      assert !PlacedSections(items, |items|)[0].leading;
    }
    ChainIsScanned(file, items, |items| - 1, rules);
    ChainIsHeld(file, items);
    PreviousIsBefore(items, |items| - 1);
    assert DescriptorOffset(items, |items| - 1) == |file| - DESCRIPTOR_SIZE;
  }

  /** A strict reader declines the leading layout when the file header is followed by bytes that
      do not start like a section number, as a zlib stream (section 2.2 of RFC 1950) does not. */
  lemma ZlibFirstDeclines(file: Bytes, items: seq<Item>, rules: Rules)
    requires IsChainFile(file, items) && rules.strict
    requires items != [] && items[0].payload != [] && items[0].payload[0] % 16 == 8 && items[0].payload[0] / 16 == 7
    ensures LeadingFrom(file, FILE_HEADER_SIZE, false, rules).Declined?
    ensures Scan(file, rules) == Ok(PlacedSections(items, |items|))
  {
    hide IsChainFile, ChainBytes, DescriptorBytes, DataOffset, Scan, ChecksumHolds, DataIsAccepted;
    ChainIsHeld(file, items);
    SectionsAreHeld(file, items, |items|, 0);
    FirstDataOffset(items);
    if FILE_HEADER_SIZE + DESCRIPTOR_SIZE <= |file| {
      var b := file[FILE_HEADER_SIZE..FILE_HEADER_SIZE + DESCRIPTOR_SIZE];
      assert b[0] == items[0].payload[0] by {
        assert file[FILE_HEADER_SIZE..FILE_HEADER_SIZE + |items[0].payload|][0] == b[0];
      }
      assert FromLe(b[..4]) % 256 == b[0] by { LowByteIsFirst(b[..4]); }
      assert !IsKnown(FromLe(b[..4]));
    }
    WrittenFileIsScanned(file, items, rules);
  }

  lemma FirstDataOffset(items: seq<Item>)
    ensures DataOffset(items, 0) == FILE_HEADER_SIZE
  {}

  lemma LowByteIsFirst(b: Bytes)
    requires b != []
    ensures FromLe(b) % 256 == b[0]
  {}
}
