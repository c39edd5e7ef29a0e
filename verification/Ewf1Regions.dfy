/** EWF1 tables in any data region (src/image.rs, `parse_ewf1_ranges`, `decode_ewf1_entry`): tables
    that hold their own chunk data, and chunks from 2 GiB on in a region that is larger. */
module Ewf1Regions {
  import opened Basics
  import opened ChunkCodec
  import opened Ewf1Sections
  import opened Ewf1Tables
  import opened Ewf1RoundTrip
  import Ewf1Image

  /** Files are addressed by signed 64-bit offsets. */
  const FILE_LIMIT: nat := 0x8000_0000_0000_0000

  // ---------------------------------------------------------------- entries from any start

  /** Where chunk `i` starts, when the first one starts at `start`. */
  function StartOf(chunks: seq<Chunk>, start: nat, i: nat): nat
    requires i <= |chunks|
  {
    start + RelativeOffset(chunks, i)
  }

  function EntryFrom(chunks: seq<Chunk>, start: nat, i: nat): nat
    requires i < |chunks|
  {
    StartOf(chunks, start, i) + (if chunks[i].compressed then U31 else 0)
  }

  function EntriesFrom(chunks: seq<Chunk>, start: nat, count: nat): (b: Bytes)
    requires count <= |chunks|
    ensures |b| == 4 * count
  {
    if count == 0 then [] else EntriesFrom(chunks, start, count - 1) + Le(EntryFrom(chunks, start, count - 1), 4)
  }

  /** The offsets fit: 31 bits beside the flag of a compressed chunk, 32 bits without it. */
  ghost predicate Fitting(chunks: seq<Chunk>, start: nat) {
    forall i | 0 <= i < |chunks| :: EntryFrom(chunks, start, i) < if chunks[i].compressed then 2 * U31 else U32
  }

  /** The region ends where the last chunk does, and the chunks are within the reader's caps. */
  ghost predicate Covers(range: TableRange, chunks: seq<Chunk>, start: nat, chunkSize: nat) {
    && range.chunkCount == |chunks| && Fitting(chunks, start)
    && range.dataEnd == range.baseOffset + start + TotalSize(chunks) < FILE_LIMIT
    && forall i | 0 <= i < |chunks| :: WithinCaps(chunks[i], chunkSize, range.profile)
  }

  /** A chunk below 2 GiB can be told apart from any other; from there on only the last one can,
      and only when it is too far from its 31-bit reading to be a compressed chunk. */
  predicate Distinguishable(chunks: seq<Chunk>, start: nat, chunkSize: nat, i: nat)
    requires i < |chunks|
  {
    StartOf(chunks, start, i) >= U31 ==>
      && i + 1 == |chunks|
      && ZlibCap(chunkSize).Ok? && U31 + |chunks[i].bytes| > ZlibCap(chunkSize).value
  }

  ghost predicate AllDistinguishable(chunks: seq<Chunk>, start: nat, chunkSize: nat) {
    forall i | 0 <= i < |chunks| :: Distinguishable(chunks, start, chunkSize, i)
  }

  function PlaceOf(range: TableRange, chunks: seq<Chunk>, start: nat, i: nat): Located
    requires i < |chunks|
  {
    Located(range.baseOffset + StartOf(chunks, start, i), |chunks[i].bytes|,
            if chunks[i].compressed then ZlibData else RawData)
  }

  lemma {:induction false} EntryFromIsHeld(file: Bytes, offset: nat, chunks: seq<Chunk>, start: nat, count: nat, i: nat)
    requires i < count <= |chunks| && HoldsAt(file, offset, EntriesFrom(chunks, start, count))
    ensures HoldsAt(file, offset + 4 * i, Le(EntryFrom(chunks, start, i), 4))
    decreases count
  {
    SplitHolds(file, offset, EntriesFrom(chunks, start, count - 1), Le(EntryFrom(chunks, start, count - 1), 4));
    if i < count - 1 { EntryFromIsHeld(file, offset, chunks, start, count - 1, i); }
  }

  lemma CapsAreOrdered(chunkSize: nat)
    ensures ZlibCap(chunkSize).Ok? ==> RawCap(chunkSize).Ok? && RawCap(chunkSize).value < ZlibCap(chunkSize).value
  {
  }

  // ---------------------------------------------------------------- what an entry decodes to

  /** An entry below 2^31 never has its top bit. */
  lemma LowIsMasked(range: TableRange, raw: nat, chunkSize: nat, nextRaw: Option<nat>, final: bool)
    requires raw < U31
    ensures DecodeEntry(range, raw, chunkSize, nextRaw, final) == Ok(Entry(false, range.baseOffset + raw))
  {
  }

  /** The top bit of a compressed chunk's entry is never taken for an offset bit. */
  lemma CompressedIsMasked(range: TableRange, relative: nat, size: nat, chunkSize: nat, nextRaw: Option<nat>,
                           final: bool)
    requires relative < U31 && range.baseOffset + relative + size <= range.dataEnd < FILE_LIMIT && size > 0
    requires ZlibCap(chunkSize).Ok? && size <= ZlibCap(chunkSize).value
    requires nextRaw.Some? ==>
               nextRaw.value == relative + size
               || (relative + size < U31 && nextRaw.value == relative + size + U31)
    requires nextRaw.Some? ==> nextRaw.value < U32
    requires nextRaw.None? && final ==> range.dataEnd == range.baseOffset + relative + size
    ensures DecodeEntry(range, relative + U31, chunkSize, nextRaw, final)
            == Ok(Entry(true, range.baseOffset + relative))
  {
    hide ZlibCap;
    assert (relative + U31) % U31 == relative;
    if nextRaw.Some? && relative + size < U31 { assert nextRaw.value % U31 == relative + size; }
    if nextRaw.Some? && relative + size >= U31 { assert nextRaw.value % U31 == relative + size - U31; }
  }

  /** The last chunk, stored raw from 2 GiB on, is read where it is exactly when its 31-bit
      reading is too far off. */
  lemma LastIsFullWidth(range: TableRange, relative: nat, size: nat, chunkSize: nat)
    requires U31 <= relative < U32 && size > 0 && range.dataEnd == range.baseOffset + relative + size < FILE_LIMIT
    requires RawCap(chunkSize).Ok? && size <= RawCap(chunkSize).value
    ensures var entry := DecodeEntry(range, relative, chunkSize, None, true);
            if ZlibCap(chunkSize).Ok? && U31 + size > ZlibCap(chunkSize).value
            then entry == Ok(Entry(false, range.baseOffset + relative))
            else entry.Ok? ==> entry.value == Entry(true, range.baseOffset + relative - U31)
  {
    hide ZlibCap, RawCap;
    assert relative % U31 == relative - U31;
  }

  /** A raw chunk from 2 GiB on that is not the last is never read where it is. */
  lemma InnerIsNeverFullWidth(range: TableRange, relative: nat, size: nat, chunkSize: nat, next: nat)
    requires U31 <= relative && next == relative + size < U32 && size > 0
    requires range.baseOffset + next <= range.dataEnd < FILE_LIMIT
    requires RawCap(chunkSize).Ok? && size <= RawCap(chunkSize).value
    ensures var entry := DecodeEntry(range, relative, chunkSize, Some(next), false);
            entry.Ok? ==> entry.value == Entry(true, range.baseOffset + relative - U31)
  {
    CapsAreOrdered(chunkSize);
    hide ZlibCap, RawCap;
    assert relative % U31 == relative - U31 && next % U31 == next - U31;
  }

  // ---------------------------------------------------------------- looking chunks up

  /** What the caps say of one chunk. */
  lemma CapsSay(c: Chunk, chunkSize: nat, profile: Profile)
    requires WithinCaps(c, chunkSize, profile)
    ensures |c.bytes| > 0
    ensures c.compressed ==> ZlibCap(chunkSize).Ok? && |c.bytes| <= ZlibCap(chunkSize).value
    ensures !c.compressed ==> RawCap(chunkSize).Ok? && |c.bytes| <= RawCap(chunkSize).value
  {
  }

  /** Where chunk `i` ends: at the next one, inside the region. */
  lemma ChunkLies(range: TableRange, chunks: seq<Chunk>, start: nat, chunkSize: nat, i: nat)
    requires Covers(range, chunks, start, chunkSize) && i < |chunks|
    ensures StartOf(chunks, start, i + 1) == StartOf(chunks, start, i) + |chunks[i].bytes|
    ensures range.baseOffset + StartOf(chunks, start, i + 1) <= range.dataEnd < FILE_LIMIT
    ensures i + 1 == |chunks| ==> range.baseOffset + StartOf(chunks, start, i + 1) == range.dataEnd
    ensures WithinCaps(chunks[i], chunkSize, range.profile)
    ensures EntryFrom(chunks, start, i) == StartOf(chunks, start, i) + (if chunks[i].compressed then U31 else 0) < U32
    ensures chunks[i].compressed ==> StartOf(chunks, start, i) < U31
  {
    OffsetsGrow(chunks, i + 1, |chunks|);
  }

  lemma DistinguishableSays(chunks: seq<Chunk>, start: nat, chunkSize: nat, i: nat)
    requires i < |chunks|
    ensures Distinguishable(chunks, start, chunkSize, i)
            <==> (StartOf(chunks, start, i) >= U31 ==>
                    && i + 1 == |chunks|
                    && ZlibCap(chunkSize).Ok? && U31 + |chunks[i].bytes| > ZlibCap(chunkSize).value)
  {
  }

  /** Every entry decodes to its chunk, with or without sight of the next entry. */
  lemma EntryFromIsDecoded(range: TableRange, chunks: seq<Chunk>, start: nat, chunkSize: nat, i: nat,
                           nextRaw: Option<nat>)
    requires Covers(range, chunks, start, chunkSize) && i < |chunks| && Distinguishable(chunks, start, chunkSize, i)
    requires nextRaw.Some? ==> i + 1 < |chunks| && nextRaw.value == EntryFrom(chunks, start, i + 1)
    ensures DecodeEntry(range, EntryFrom(chunks, start, i), chunkSize, nextRaw, i + 1 == |chunks|)
            == Ok(Entry(chunks[i].compressed, range.baseOffset + StartOf(chunks, start, i)))
  {
    hide *;
    ChunkLies(range, chunks, start, chunkSize, i);
    CapsSay(chunks[i], chunkSize, range.profile);
    DistinguishableSays(chunks, start, chunkSize, i);
    if nextRaw.Some? { ChunkLies(range, chunks, start, chunkSize, i + 1); }
    var relative, size := StartOf(chunks, start, i), |chunks[i].bytes|;
    if chunks[i].compressed {
      CompressedIsMasked(range, relative, size, chunkSize, nextRaw, i + 1 == |chunks|);
    } else if relative < U31 {
      LowIsMasked(range, relative, chunkSize, nextRaw, i + 1 == |chunks|);
    } else {
      LastIsFullWidth(range, relative, size, chunkSize);
    }
  }

  lemma CountIs(range: TableRange, chunks: seq<Chunk>, start: nat, chunkSize: nat, i: nat)
    requires Covers(range, chunks, start, chunkSize) && i < |chunks|
    ensures range.chunkCount == |chunks|
    ensures PlaceOf(range, chunks, start, i)
            == Located(range.baseOffset + StartOf(chunks, start, i), |chunks[i].bytes|,
                       if chunks[i].compressed then ZlibData else RawData)
  {
  }

  lemma NextOffsetIs(range: TableRange, raw: nat, chunkSize: nat, final: bool)
    requires DecodeEntry(range, raw, chunkSize, None, final).Ok?
    ensures NextOffset(range, raw, chunkSize, final) == Ok(DecodeEntry(range, raw, chunkSize, None, final).value.offset)
  {
    hide DecodeEntry;
  }

  lemma EntryFromIsRead(file: Bytes, range: TableRange, chunks: seq<Chunk>, start: nat, chunkSize: nat, i: nat)
    requires Covers(range, chunks, start, chunkSize) && i < |chunks|
    requires HoldsAt(file, range.entriesOffset, EntriesFrom(chunks, start, |chunks|))
    ensures var entry := ReadExact(file, range.entriesOffset + 4 * i, 4);
            entry.Ok? && FromLe(entry.value) == EntryFrom(chunks, start, i)
  {
    hide *;
    ChunkLies(range, chunks, start, chunkSize, i);
    EntryFromIsHeld(file, range.entriesOffset, chunks, start, |chunks|, i);
    NumberIsRead(file, range.entriesOffset + 4 * i, EntryFrom(chunks, start, i));
  }

  lemma NextIsFrom(file: Bytes, range: TableRange, chunks: seq<Chunk>, start: nat, chunkSize: nat, i: nat)
    requires Covers(range, chunks, start, chunkSize) && i + 1 < |chunks|
    requires HoldsAt(file, range.entriesOffset, EntriesFrom(chunks, start, |chunks|))
    requires Distinguishable(chunks, start, chunkSize, i + 1)
    ensures var next := range.entriesOffset + 4 * (i + 1);
            ReadExact(file, next, 4).Ok? && FromLe(ReadExact(file, next, 4).value) == EntryFrom(chunks, start, i + 1)
    ensures NextOffset(range, EntryFrom(chunks, start, i + 1), chunkSize, i + 2 == range.chunkCount)
            == Ok(range.baseOffset + StartOf(chunks, start, i + 1))
  {
    hide *;
    CountIs(range, chunks, start, chunkSize, i);
    EntryFromIsRead(file, range, chunks, start, chunkSize, i + 1);
    EntryFromIsDecoded(range, chunks, start, chunkSize, i + 1, None);
    NextOffsetIs(range, EntryFrom(chunks, start, i + 1), chunkSize, i + 2 == |chunks|);
  }

  /** Where every chunk can be told apart, each is found where it is. */
  lemma DistinguishableIsFound(file: Bytes, range: TableRange, chunks: seq<Chunk>, start: nat, chunkSize: nat, i: nat)
    requires Covers(range, chunks, start, chunkSize) && i < |chunks|
    requires HoldsAt(file, range.entriesOffset, EntriesFrom(chunks, start, |chunks|))
    requires Distinguishable(chunks, start, chunkSize, i)
    requires i + 1 < |chunks| ==> Distinguishable(chunks, start, chunkSize, i + 1)
    ensures Lookup(file, range, i, chunkSize) == Ok(PlaceOf(range, chunks, start, i))
  {
    hide *;
    var size, first := |chunks[i].bytes|, range.baseOffset + StartOf(chunks, start, i);
    var nextRaw := if i + 1 < |chunks| then Some(EntryFrom(chunks, start, i + 1)) else None;
    var encoding := if chunks[i].compressed then ZlibData else RawData;
    CountIs(range, chunks, start, chunkSize, i);
    ChunkLies(range, chunks, start, chunkSize, i);
    EntryFromIsRead(file, range, chunks, start, chunkSize, i);
    EntryFromIsDecoded(range, chunks, start, chunkSize, i, nextRaw);
    if i + 1 < |chunks| { NextIsFrom(file, range, chunks, start, chunkSize, i); }
    SizeIsAccepted(chunks[i], chunkSize, range.profile);
    LookupResolves(file, range, i, chunkSize, EntryFrom(chunks, start, i), nextRaw,
                   Entry(chunks[i].compressed, first), first + size, encoding);
  }

  lemma LookupStartsAtEntry(file: Bytes, range: TableRange, i: nat, chunkSize: nat, raw: nat, nextRaw: Option<nat>)
    requires i < range.chunkCount && (nextRaw.Some? <==> i + 1 < range.chunkCount)
    requires var entry := ReadExact(file, range.entriesOffset + 4 * i, 4); entry.Ok? && FromLe(entry.value) == raw
    requires nextRaw.Some? ==>
               var next := ReadExact(file, range.entriesOffset + 4 * (i + 1), 4);
               next.Ok? && FromLe(next.value) == nextRaw.value
    ensures Lookup(file, range, i, chunkSize).Ok? ==>
              var entry := DecodeEntry(range, raw, chunkSize, nextRaw, i + 1 == range.chunkCount);
              entry.Ok? && Lookup(file, range, i, chunkSize).value.offset == entry.value.offset
  {
    hide ReadExact, FromLe, DecodeEntry, NextOffset, Ewf1Encoding, Ewf1SizeAccepted;
  }

  /** In any file, whatever its tables say, a chunk that is found is not empty, lies behind the base
      of its region, and is no larger than its encoding allows. */
  lemma LookupIsBounded(file: Bytes, range: TableRange, i: nat, chunkSize: nat)
    requires Lookup(file, range, i, chunkSize).Ok?
    ensures var found := Lookup(file, range, i, chunkSize).value;
            && found.size > 0 && found.offset >= range.baseOffset
            && match found.encoding
               case RawData => found.size <= chunkSize + 4
               case ZlibData => ZlibCap(chunkSize).Ok? && found.size <= Max(ZlibCap(chunkSize).value, 2 * chunkSize)
               case ZstdData => found.size <= 2 * chunkSize
               case _ => false
  {
    hide FromLe, FullWidth, ReadExact, ZlibCap;
  }

  /** A chunk that cannot be told apart is not found where it is. */
  lemma IndistinguishableIsMissed(file: Bytes, range: TableRange, chunks: seq<Chunk>, start: nat, chunkSize: nat,
                                  i: nat)
    requires Covers(range, chunks, start, chunkSize) && i < |chunks|
    requires HoldsAt(file, range.entriesOffset, EntriesFrom(chunks, start, |chunks|))
    requires !Distinguishable(chunks, start, chunkSize, i)
    ensures Lookup(file, range, i, chunkSize) != Ok(PlaceOf(range, chunks, start, i))
  {
    hide *;
    var relative, size := StartOf(chunks, start, i), |chunks[i].bytes|;
    var nextRaw := if i + 1 < |chunks| then Some(EntryFrom(chunks, start, i + 1)) else None;
    CountIs(range, chunks, start, chunkSize, i);
    ChunkLies(range, chunks, start, chunkSize, i);
    CapsSay(chunks[i], chunkSize, range.profile);
    DistinguishableSays(chunks, start, chunkSize, i);
    EntryFromIsRead(file, range, chunks, start, chunkSize, i);
    if i + 1 < |chunks| {
      EntryFromIsRead(file, range, chunks, start, chunkSize, i + 1);
      ChunkLies(range, chunks, start, chunkSize, i + 1);
      InnerIsNeverFullWidth(range, relative, size, chunkSize, EntryFrom(chunks, start, i + 1));
    } else {
      LastIsFullWidth(range, relative, size, chunkSize);
    }
    LookupStartsAtEntry(file, range, i, chunkSize, EntryFrom(chunks, start, i), nextRaw);
    Positive();
  }

  lemma Positive()
    ensures U31 > 0
  {
  }

  /** Each chunk of a table is found where it is, with its size and encoding, exactly when they
      can all be told apart. */
  lemma AllAreFoundExactlyWhen(file: Bytes, range: TableRange, chunks: seq<Chunk>, start: nat, chunkSize: nat)
    requires Covers(range, chunks, start, chunkSize)
    requires HoldsAt(file, range.entriesOffset, EntriesFrom(chunks, start, |chunks|))
    ensures (forall i | 0 <= i < |chunks| :: Lookup(file, range, i, chunkSize) == Ok(PlaceOf(range, chunks, start, i)))
            <==> AllDistinguishable(chunks, start, chunkSize)
  {
    hide Covers, HoldsAt, EntriesFrom, Lookup, PlaceOf, Distinguishable;
    forall i | 0 <= i < |chunks| && AllDistinguishable(chunks, start, chunkSize)
      ensures Lookup(file, range, i, chunkSize) == Ok(PlaceOf(range, chunks, start, i))
    {
      DistinguishableIsFound(file, range, chunks, start, chunkSize, i);
    }
    forall i | 0 <= i < |chunks| && !Distinguishable(chunks, start, chunkSize, i)
      ensures Lookup(file, range, i, chunkSize) != Ok(PlaceOf(range, chunks, start, i))
    {
      IndistinguishableIsMissed(file, range, chunks, start, chunkSize, i);
    }
  }

  /** Two raw chunks, the first of them at 2 GiB: the first is looked for at 0. */
  lemma InnerChunkIsMissed(file: Bytes, range: TableRange, a: Bytes, b: Bytes, chunkSize: nat)
    requires Covers(range, [Chunk(a, false), Chunk(b, false)], U31, chunkSize)
    requires HoldsAt(file, range.entriesOffset, EntriesFrom([Chunk(a, false), Chunk(b, false)], U31, 2))
    ensures Lookup(file, range, 0, chunkSize) != Ok(Located(range.baseOffset + U31, |a|, RawData))
  {
    var chunks := [Chunk(a, false), Chunk(b, false)];
    hide Covers, HoldsAt, EntriesFrom, Lookup;
    IndistinguishableIsMissed(file, range, chunks, U31, chunkSize, 0);
    assert PlaceOf(range, chunks, U31, 0) == Located(range.baseOffset + U31, |a|, RawData);
  }

  /** The bytes of every chunk are in the file, and looking each one up gives where they are, with
      its size and encoding, exactly when the chunks can be told apart. */
  ghost predicate FindsTheDistinguishable(file: Bytes, range: TableRange, chunks: seq<Chunk>, start: nat,
                                          chunkSize: nat) {
    && ((forall i | 0 <= i < |chunks| :: Lookup(file, range, i, chunkSize) == Ok(PlaceOf(range, chunks, start, i)))
        <==> AllDistinguishable(chunks, start, chunkSize))
    && forall i | 0 <= i < |chunks| :: HoldsAt(file, PlaceOf(range, chunks, start, i).offset, chunks[i].bytes)
  }

  lemma RangeFinds(file: Bytes, range: TableRange, chunks: seq<Chunk>, start: nat, chunkSize: nat)
    requires Covers(range, chunks, start, chunkSize)
    requires HoldsAt(file, range.entriesOffset, EntriesFrom(chunks, start, |chunks|))
    requires HoldsAt(file, range.baseOffset + start, Payload(chunks))
    ensures FindsTheDistinguishable(file, range, chunks, start, chunkSize)
  {
    assert HoldsAt(file, range.baseOffset + start, PayloadTo(chunks, |chunks|));
    hide HoldsAt, Lookup, AllDistinguishable, Covers, EntriesFrom;
    AllAreFoundExactlyWhen(file, range, chunks, start, chunkSize);
    forall i | 0 <= i < |chunks| ensures HoldsAt(file, PlaceOf(range, chunks, start, i).offset, chunks[i].bytes) {
      ChunkIsHeld(file, range.baseOffset + start, chunks, |chunks|, i);
    }
  }

  // ---------------------------------------------------------------- tables that hold their own data

  /** Where the chunk data of a table section starts: after the entries and their checksum. */
  function Home(s: Section, chunks: seq<Chunk>, tail: Bytes): nat {
    s.dataOffset + TABLE_HEADER_SIZE + 4 * |chunks| + |tail|
  }

  /** A table section with its entries, a checksum of them or none, and then the chunks. Without
      a checksum the first entry must say so by its own offset. */
  ghost predicate HoldsResident(file: Bytes, s: Section, chunks: seq<Chunk>, header: Bytes, tail: Bytes) {
    var home := Home(s, chunks, tail);
    var entries := EntriesFrom(chunks, home, |chunks|);
    && IsTable(s.kind) && 0 < |chunks| && Fitting(chunks, home)
    && HeaderSays(header, |chunks|, 0) && FooterSays(tail, entries) && (tail == [] ==> home < U31)
    && s.DataEnd() == home + TotalSize(chunks) < FILE_LIMIT
    && HoldsAt(file, s.dataOffset, header + entries + tail + Payload(chunks))
  }

  function ResidentRange(s: Section, chunks: seq<Chunk>, firstChunk: nat, profile: Profile): TableRange {
    TableRange(firstChunk, |chunks|, s.dataOffset + TABLE_HEADER_SIZE, 0, s.DataEnd(), profile)
  }

  ghost predicate NoSectors(sections: seq<Section>) {
    forall m | 0 <= m < |sections| :: sections[m].kind != SECTORS
  }

  lemma {:induction false} NoneIsFound(sections: seq<Section>, offset: nat, orDescriptor: bool, from: nat)
    requires NoSectors(sections) && from <= |sections|
    ensures FindSectors(sections, offset, orDescriptor, from).None?
    decreases |sections| - from
  {
    if from < |sections| { NoneIsFound(sections, offset, orDescriptor, from + 1); }
  }

  /** The first entry of a table, without its top bit. */
  lemma FirstEntryIs(file: Bytes, offset: nat, chunks: seq<Chunk>, start: nat)
    requires 0 < |chunks| && Fitting(chunks, start) && HoldsAt(file, offset, EntriesFrom(chunks, start, |chunks|))
    ensures var first := ReadExact(file, offset, 4);
            first.Ok? && FromLe(first.value) % U31 == start % U31
    ensures chunks[0].compressed ==> start < U31
    ensures start < U32
  {
    EntryFromIsHeld(file, offset, chunks, start, |chunks|, 0);
    assert EntryFrom(chunks, start, 0) == start + if chunks[0].compressed then U31 else 0;
    NumberIsRead(file, offset + 4 * 0, EntryFrom(chunks, start, 0));
  }

  lemma ResidentParts(file: Bytes, s: Section, chunks: seq<Chunk>, header: Bytes, tail: Bytes)
    requires HoldsResident(file, s, chunks, header, tail)
    ensures var home := Home(s, chunks, tail);
            var entries := EntriesFrom(chunks, home, |chunks|);
            && HoldsAt(file, s.dataOffset, header) && HoldsAt(file, s.dataOffset + TABLE_HEADER_SIZE, entries)
            && HoldsAt(file, home - |tail|, tail) && HoldsAt(file, home, Payload(chunks))
            && s.DataEnd() == home + TotalSize(chunks) && |header| == TABLE_HEADER_SIZE
  {
    hide *;
    var entries := EntriesFrom(chunks, Home(s, chunks, tail), |chunks|);
    ResidentSays(file, s, chunks, header, tail);
    SplitHolds(file, s.dataOffset, header + entries + tail, Payload(chunks));
    SplitThree(file, s.dataOffset, header, entries, tail);
  }

  lemma ResidentSays(file: Bytes, s: Section, chunks: seq<Chunk>, header: Bytes, tail: Bytes)
    requires HoldsResident(file, s, chunks, header, tail)
    ensures var entries := EntriesFrom(chunks, Home(s, chunks, tail), |chunks|);
            && HoldsAt(file, s.dataOffset, header + entries + tail + Payload(chunks))
            && |header| == TABLE_HEADER_SIZE && FooterSays(tail, entries)
            && s.DataEnd() == Home(s, chunks, tail) + TotalSize(chunks)
    ensures Home(s, chunks, tail) == s.dataOffset + TABLE_HEADER_SIZE + 4 * |chunks| + |tail|
    ensures Fitting(chunks, Home(s, chunks, tail)) && 0 < |chunks|
    ensures tail == [] ==> Home(s, chunks, tail) < U31
  {
    hide HoldsAt, Fitting, FooterSays, Payload, EntriesFrom;
  }

  lemma RegionIsResident(file: Bytes, sections: seq<Section>, s: Section, chunks: seq<Chunk>, header: Bytes,
                         tail: Bytes)
    requires HoldsResident(file, s, chunks, header, tail) && NoSectors(sections)
    ensures DataRegion(file, sections, s, 0, Home(s, chunks, tail) - |tail|) == Ok((0, s.DataEnd()))
  {
    var home := Home(s, chunks, tail);
    var entries, start := EntriesFrom(chunks, home, |chunks|), s.dataOffset + TABLE_HEADER_SIZE;
    var end := start + |entries|;
    hide *;
    ResidentParts(file, s, chunks, header, tail);
    ResidentSays(file, s, chunks, header, tail);
    FirstEntryIs(file, start, chunks, home);
    NoneIsFound(sections, 0, true, 0);
    NoneIsFound(sections, home % U31, false, 0);
    TailLength(tail, entries);
    HeldIsRead(file, start, entries);
    HeldIsRead(file, home - |tail|, tail);
    HomeIsResident(home);
    RegionWithoutSectors(file, sections, s, end, ReadExact(file, start, 4).value, entries, tail);
  }

  lemma HomeIsResident(home: nat)
    requires home < U32
    ensures U31 > 0
    ensures home < U31 ==> home % U31 == home
    ensures home >= 4 ==> home % U31 != home - 4
  {
    if home >= U31 { assert home % U31 == home - U31; }
  }

  /** What the region comes to once the bytes before the data are read. */
  lemma RegionWithoutSectors(file: Bytes, sections: seq<Section>, s: Section, entriesEnd: nat, first: Bytes,
                             entries: Bytes, tail: Bytes)
    requires var start := s.dataOffset + TABLE_HEADER_SIZE;
             && ReadExact(file, start, 4) == Ok(first) && entriesEnd == start + |entries|
             && ReadExact(file, start, |entries|) == Ok(entries)
    requires FindSectors(sections, 0, true, 0).None? && FindSectors(sections, FromLe(first) % U31, false, 0).None?
    requires ChecksumAccepted(0, entries) && entriesEnd + |tail| <= s.DataEnd()
    requires if tail == [] then FromLe(first) % U31 == entriesEnd
             else
               && FromLe(first) % U31 != entriesEnd && |tail| == 4
               && ReadExact(file, entriesEnd, 4) == Ok(tail) && ChecksumAccepted(FromLe(tail), entries)
    ensures DataRegion(file, sections, s, 0, entriesEnd) == Ok((0, s.DataEnd()))
  {
    hide ReadExact, FindSectors, ChecksumAccepted, FromLe, Zeros;
    ZerosAreZero(4);
  }

  lemma TailLength(tail: Bytes, entries: Bytes)
    requires FooterSays(tail, entries)
    ensures |tail| == 0 || |tail| == 4
    ensures |tail| == 4 ==> ChecksumAccepted(FromLe(tail), entries)
    ensures ChecksumAccepted(0, entries)
  {
  }

  lemma HeldIsRead(file: Bytes, offset: nat, b: Bytes)
    requires HoldsAt(file, offset, b)
    ensures ReadExact(file, offset, |b|) == Ok(b)
  {
  }

  /** One iteration over a table of `count` entries whose region is known. */
  lemma TableIsParsed(file: Bytes, sections: seq<Section>, s: Section, count: nat, base: nat, region: (nat, nat),
                      profile: Profile, state: ParseState)
    requires IsTable(s.kind) && TableHeader(file, s) == Ok((count, base)) && count > 0
    requires s.kind == TABLE2 ==> state.previous != Table(true, count, base)
    requires s.dataOffset + TABLE_HEADER_SIZE + 4 * count <= s.DataEnd()
    requires DataRegion(file, sections, s, base, s.dataOffset + TABLE_HEADER_SIZE + 4 * count) == Ok(region)
    ensures ParseSection(file, sections, s, profile, state)
            == Ok(ParseState(state.ranges
                             + [TableRange(state.nextChunk, count, s.dataOffset + TABLE_HEADER_SIZE, region.0,
                                           region.1, profile)],
                             state.nextChunk + count, Table(s.kind == TABLE, count, base)))
  {
    hide TableHeader, DataRegion;
  }

  lemma HeldHeaderIsRead(file: Bytes, s: Section, header: Bytes, count: nat, base: nat)
    requires HoldsAt(file, s.dataOffset, header) && HeaderSays(header, count, base) && s.dataSize >= TABLE_HEADER_SIZE
    ensures TableHeader(file, s) == Ok((count, base))
  {
  }

  lemma ResidentIsParsed(file: Bytes, sections: seq<Section>, s: Section, chunks: seq<Chunk>, header: Bytes,
                         tail: Bytes, profile: Profile, state: ParseState)
    requires HoldsResident(file, s, chunks, header, tail) && NoSectors(sections) && state.previous == NoTable
    ensures ParseSection(file, sections, s, profile, state)
            == Ok(ParseState(state.ranges + [ResidentRange(s, chunks, state.nextChunk, profile)],
                             state.nextChunk + |chunks|, Table(s.kind == TABLE, |chunks|, 0)))
  {
    ResidentSays(file, s, chunks, header, tail);
    ResidentParts(file, s, chunks, header, tail);
    assert IsTable(s.kind) && HeaderSays(header, |chunks|, 0);
    hide HoldsResident, HoldsAt, DataRegion, TableHeader, ParseSection, HeaderSays, Fitting, FooterSays, EntriesFrom;
    HeldHeaderIsRead(file, s, header, |chunks|, 0);
    RegionIsResident(file, sections, s, chunks, header, tail);
    TableIsParsed(file, sections, s, |chunks|, 0, (0, s.DataEnd()), profile, state);
  }

  /** Section `k` is the only table, and there is no sectors section. */
  ghost predicate OnlyTable(sections: seq<Section>, k: nat) {
    k < |sections| && NoSectors(sections) && forall m | 0 <= m < |sections| && m != k :: !IsTable(sections[m].kind)
  }

  lemma OnlyTableIsStepped(file: Bytes, sections: seq<Section>, k: nat, profile: Profile, state: ParseState,
                           next: ParseState)
    requires OnlyTable(sections, k) && ParseSection(file, sections, sections[k], profile, state) == Ok(next)
    ensures ParseSections(file, sections, 0, |sections|, profile, state) == Ok(next)
  {
    hide ParseSection;
    Ewf1Image.TablesAreAhead(file, sections, 0, k, profile, state);
    OthersAreSkipped(file, sections, k + 1, |sections|, profile, next);
  }

  /** A segment whose only table holds its own chunks, with or without a checksum of its entries,
      gives one range, in which each chunk is found where its bytes are, with its size and
      encoding, exactly when the chunks can be told apart: so whenever they start below 2 GiB. */
  lemma ResidentChunksAreFound(file: Bytes, sections: seq<Section>, k: nat, chunks: seq<Chunk>, header: Bytes,
                               tail: Bytes, firstChunk: nat, chunkSize: nat, profile: Profile)
    requires OnlyTable(sections, k) && HoldsResident(file, sections[k], chunks, header, tail)
    requires forall i | 0 <= i < |chunks| :: WithinCaps(chunks[i], chunkSize, profile)
    ensures var range := ResidentRange(sections[k], chunks, firstChunk, profile);
            var home := Home(sections[k], chunks, tail);
            && ParseSections(file, sections, 0, |sections|, profile, ParseState([], firstChunk, NoTable))
               == Ok(ParseState([range], firstChunk + |chunks|, Table(sections[k].kind == TABLE, |chunks|, 0)))
            && FindsTheDistinguishable(file, range, chunks, home, chunkSize)
  {
    var s, home := sections[k], Home(sections[k], chunks, tail);
    var range, state := ResidentRange(s, chunks, firstChunk, profile), ParseState([], firstChunk, NoTable);
    ResidentSays(file, s, chunks, header, tail);
    ResidentParts(file, s, chunks, header, tail);
    assert Covers(range, chunks, home, chunkSize);
    hide *;
    ResidentIsParsed(file, sections, s, chunks, header, tail, profile, state);
    assert state.ranges + [range] == [range];
    OnlyTableIsStepped(file, sections, k, profile, state,
                       ParseState([range], firstChunk + |chunks|, Table(s.kind == TABLE, |chunks|, 0)));
    RangeFinds(file, range, chunks, home, chunkSize);
  }

  /** Chunks that end at 2 GiB or before can always be told apart. */
  lemma LowChunksAreDistinguishable(chunks: seq<Chunk>, start: nat, chunkSize: nat)
    requires start + TotalSize(chunks) <= U31 && forall i | 0 <= i < |chunks| :: |chunks[i].bytes| > 0
    ensures AllDistinguishable(chunks, start, chunkSize)
  {
    forall i | 0 <= i < |chunks| ensures Distinguishable(chunks, start, chunkSize, i) {
      OffsetsGrow(chunks, i + 1, |chunks|);
      ChunkTakesItsBytes(chunks, i);
    }
  }

  // ---------------------------------------------------------------- tables into a sectors section

  /** The sectors section a table points into: by its base, or by its first entry when that is 0. */
  ghost predicate PointsInto(sections: seq<Section>, base: nat, start: nat, sectors: Section) {
    if base > 0 then FindSectors(sections, base, true, 0) == Some(sectors)
    else FindSectors(sections, 0, true, 0).None? && FindSectors(sections, start % U31, false, 0) == Some(sectors)
  }

  /** A table section whose entries place the chunks from `base + start` to the end of `sectors`. */
  ghost predicate HoldsTableInto(file: Bytes, s: Section, sectors: Section, chunks: seq<Chunk>, base: nat, start: nat,
                                 header: Bytes, tail: Bytes) {
    var entries := EntriesFrom(chunks, start, |chunks|);
    && IsTable(s.kind) && 0 < |chunks| && Fitting(chunks, start)
    && HeaderSays(header, |chunks|, base) && FooterSays(tail, entries)
    && s.DataEnd() == Home(s, chunks, tail)
    && HoldsAt(file, s.dataOffset, header + entries + tail)
    && sectors.DataEnd() == base + start + TotalSize(chunks) < FILE_LIMIT
    && HoldsAt(file, base + start, Payload(chunks))
  }

  lemma RegionWithSectors(file: Bytes, sections: seq<Section>, s: Section, sectors: Section, base: nat, start: nat,
                          entriesEnd: nat, first: Bytes, entries: Bytes, tail: Bytes)
    requires var offset := s.dataOffset + TABLE_HEADER_SIZE;
             && ReadExact(file, offset, 4) == Ok(first) && FromLe(first) % U31 == start % U31
             && entriesEnd == offset + |entries| && ReadExact(file, offset, |entries|) == Ok(entries)
    requires PointsInto(sections, base, start, sectors)
    requires ChecksumAccepted(0, entries) && entriesEnd + |tail| == s.DataEnd()
    requires |tail| == 0
             || (|tail| == 4 && ReadExact(file, entriesEnd, 4) == Ok(tail) && ChecksumAccepted(FromLe(tail), entries))
    ensures DataRegion(file, sections, s, base, entriesEnd) == Ok((base, sectors.DataEnd()))
  {
    hide ReadExact, FindSectors, ChecksumAccepted, FromLe, Zeros;
    ZerosAreZero(4);
  }

  lemma TableIntoSays(file: Bytes, s: Section, sectors: Section, chunks: seq<Chunk>, base: nat, start: nat,
                      header: Bytes, tail: Bytes)
    requires HoldsTableInto(file, s, sectors, chunks, base, start, header, tail)
    ensures var entries, offset := EntriesFrom(chunks, start, |chunks|), s.dataOffset + TABLE_HEADER_SIZE;
            && HoldsAt(file, s.dataOffset, header) && HoldsAt(file, offset, entries)
            && HoldsAt(file, offset + |entries|, tail) && FooterSays(tail, entries)
            && s.DataEnd() == offset + |entries| + |tail| && |header| == TABLE_HEADER_SIZE
  {
    var entries := EntriesFrom(chunks, start, |chunks|);
    hide HoldsAt, Fitting, FooterSays, Payload, EntriesFrom, TotalSize;
    SplitThree(file, s.dataOffset, header, entries, tail);
  }

  lemma RegionIsInto(file: Bytes, sections: seq<Section>, s: Section, sectors: Section, chunks: seq<Chunk>, base: nat,
                     start: nat, header: Bytes, tail: Bytes)
    requires HoldsTableInto(file, s, sectors, chunks, base, start, header, tail)
    requires PointsInto(sections, base, start, sectors)
    ensures DataRegion(file, sections, s, base, s.dataOffset + TABLE_HEADER_SIZE + 4 * |chunks|)
            == Ok((base, sectors.DataEnd()))
  {
    var entries, offset := EntriesFrom(chunks, start, |chunks|), s.dataOffset + TABLE_HEADER_SIZE;
    TableIntoSays(file, s, sectors, chunks, base, start, header, tail);
    assert Fitting(chunks, start) && 0 < |chunks|;
    hide *;
    FirstEntryIs(file, offset, chunks, start);
    TailLength(tail, entries);
    HeldIsRead(file, offset, entries);
    HeldIsRead(file, offset + |entries|, tail);
    RegionWithSectors(file, sections, s, sectors, base, start, offset + |entries|, ReadExact(file, offset, 4).value,
                      entries, tail);
  }

  function IntoRange(s: Section, sectors: Section, chunks: seq<Chunk>, base: nat, firstChunk: nat,
                     profile: Profile): TableRange {
    TableRange(firstChunk, |chunks|, s.dataOffset + TABLE_HEADER_SIZE, base, sectors.DataEnd(), profile)
  }

  lemma IntoIsParsed(file: Bytes, sections: seq<Section>, s: Section, sectors: Section, chunks: seq<Chunk>, base: nat,
                     start: nat, header: Bytes, tail: Bytes, profile: Profile, state: ParseState)
    requires HoldsTableInto(file, s, sectors, chunks, base, start, header, tail)
    requires PointsInto(sections, base, start, sectors)
    requires s.kind == TABLE2 ==> state.previous != Table(true, |chunks|, base)
    ensures ParseSection(file, sections, s, profile, state)
            == Ok(ParseState(state.ranges + [IntoRange(s, sectors, chunks, base, state.nextChunk, profile)],
                             state.nextChunk + |chunks|, Table(s.kind == TABLE, |chunks|, base)))
  {
    TableIntoSays(file, s, sectors, chunks, base, start, header, tail);
    assert HeaderSays(header, |chunks|, base) && IsTable(s.kind) && |chunks| > 0;
    hide HoldsTableInto, PointsInto, HoldsAt, EntriesFrom, HeaderSays, FooterSays, TableHeader, DataRegion,
         ParseSection;
    HeldHeaderIsRead(file, s, header, |chunks|, base);
    RegionIsInto(file, sections, s, sectors, chunks, base, start, header, tail);
    TableIsParsed(file, sections, s, |chunks|, base, (base, sectors.DataEnd()), profile, state);
  }

  lemma IntoIsFound(file: Bytes, s: Section, sectors: Section, chunks: seq<Chunk>, base: nat, start: nat,
                    header: Bytes, tail: Bytes, chunkSize: nat, firstChunk: nat, profile: Profile)
    requires HoldsTableInto(file, s, sectors, chunks, base, start, header, tail)
    requires forall i | 0 <= i < |chunks| :: WithinCaps(chunks[i], chunkSize, profile)
    ensures FindsTheDistinguishable(file, IntoRange(s, sectors, chunks, base, firstChunk, profile), chunks, start,
                                    chunkSize)
  {
    TableIntoSays(file, s, sectors, chunks, base, start, header, tail);
    var range := IntoRange(s, sectors, chunks, base, firstChunk, profile);
    assert Covers(range, chunks, start, chunkSize);
    hide FindsTheDistinguishable, Covers, EntriesFrom;
    RangeFinds(file, range, chunks, start, chunkSize);
  }

  /** A table into a sectors section gives one range, in which each chunk is found where its bytes
      are exactly when the chunks can be told apart: in a region over 2 GiB, when all but the last
      start below 2 GiB and a last one beyond that is stored raw, 2 GiB past any compressed chunk. */
  lemma ChunksInSectorsAreFound(file: Bytes, sections: seq<Section>, s: Section, sectors: Section, chunks: seq<Chunk>,
                                base: nat, start: nat, header: Bytes, tail: Bytes, chunkSize: nat, profile: Profile,
                                state: ParseState)
    requires HoldsTableInto(file, s, sectors, chunks, base, start, header, tail)
    requires PointsInto(sections, base, start, sectors)
    requires s.kind == TABLE2 ==> state.previous != Table(true, |chunks|, base)
    requires forall i | 0 <= i < |chunks| :: WithinCaps(chunks[i], chunkSize, profile)
    ensures var range := IntoRange(s, sectors, chunks, base, state.nextChunk, profile);
            && ParseSection(file, sections, s, profile, state)
               == Ok(ParseState(state.ranges + [range], state.nextChunk + |chunks|,
                                Table(s.kind == TABLE, |chunks|, base)))
            && FindsTheDistinguishable(file, range, chunks, start, chunkSize)
  {
    hide *;
    IntoIsParsed(file, sections, s, sectors, chunks, base, start, header, tail, profile, state);
    IntoIsFound(file, s, sectors, chunks, base, start, header, tail, chunkSize, state.nextChunk, profile);
  }
}
