/** Reading logical files through their extents (src/image.rs, `read_single_file_at_impl`). */
module LogicalReads {
  import opened Basics
  import opened MediaReads

  datatype Extent = Extent(dataOffset: nat, dataSize: nat, sparse: bool)

  /** `repeats`: the entry is an EWF1 logical sparse file, which stores one byte. */
  datatype Entry = Entry(size: Option<nat>, extents: seq<Extent>, duplicate: Option<nat>, repeats: bool)

  /** Where the first `k` extents end in the file. */
  function EndOf(extents: seq<Extent>, k: nat): nat
    requires k <= |extents|
  {
    if k == 0 then 0 else EndOf(extents, k - 1) + extents[k - 1].dataSize
  }

  function FileSize(e: Entry): Result<nat> {
    if e.size.Some? then Ok(e.size.value)
    else if EndOf(e.extents, |e.extents|) >= U64 then Err
    else Ok(EndOf(e.extents, |e.extents|))
  }

  /** The contents of the extents in order: a sparse extent is zeros, another one a slice of
      the media. */
  function ExtentBytes(s: Source, x: Extent): (b: Bytes)
    requires s.chunkSize > 0
    ensures |b| == x.dataSize
  {
    if x.sparse then Zeros(x.dataSize) else MediaSlice(s, x.dataOffset, x.dataSize)
  }

  function Flat(s: Source, extents: seq<Extent>, k: nat): (b: Bytes)
    requires s.chunkSize > 0 && k <= |extents|
    ensures |b| == EndOf(extents, k)
  {
    if k == 0 then [] else Flat(s, extents, k - 1) + ExtentBytes(s, extents[k - 1])
  }

  /** `n` bytes of an extent from `relative` on can be read from the media. */
  ghost predicate PartReads(s: Source, x: Extent, relative: nat, n: nat) {
    x.sparse
    || (&& x.dataOffset + relative < U64
        && x.dataOffset + relative + n <= s.logicalSize
        && Readable(s, x.dataOffset + relative, n))
  }

  /** The part of `from..to` that extent `k` covers can be read. */
  ghost predicate ExtentReads(s: Source, extents: seq<Extent>, k: nat, from: nat, to: nat)
    requires k < |extents|
  {
    var start, end := Max(from, EndOf(extents, k)), Min(to, EndOf(extents, k + 1));
    start >= end || PartReads(s, extents[k], start - EndOf(extents, k), end - start)
  }

  /** The bytes `from..to` of the file that the first `k` extents have. */
  function Covered(s: Source, extents: seq<Extent>, k: nat, from: nat, to: nat): Bytes
    requires s.chunkSize > 0 && k <= |extents| && from <= to
  {
    var end := Min(to, EndOf(extents, k));
    if from >= end then [] else Flat(s, extents, k)[from..end]
  }

  lemma {:induction false} EndsGrow(extents: seq<Extent>, i: nat, j: nat)
    requires i <= j <= |extents|
    ensures EndOf(extents, i) <= EndOf(extents, j)
    decreases j - i
  {
    if i < j { EndsGrow(extents, i, j - 1); }
  }

  lemma SliceOfMediaSlice(s: Source, offset: nat, n: nat, from: nat, to: nat)
    requires s.chunkSize > 0 && from <= to <= n
    ensures MediaSlice(s, offset, n)[from..to] == MediaSlice(s, offset + from, to - from)
  {}

  /** The next extent adds its own part of the range. */
  lemma CoveredGrows(s: Source, extents: seq<Extent>, k: nat, from: nat, to: nat)
    requires s.chunkSize > 0 && k < |extents| && from <= to
    ensures var start, end := Max(from, EndOf(extents, k)), Min(to, EndOf(extents, k + 1));
            Covered(s, extents, k + 1, from, to)
            == Covered(s, extents, k, from, to)
               + (if start >= end then []
                  else ExtentBytes(s, extents[k])[start - EndOf(extents, k)..end - EndOf(extents, k)])
  {
    hide ExtentBytes;
    var before, own := Flat(s, extents, k), ExtentBytes(s, extents[k]);
    assert Flat(s, extents, k + 1) == before + own;
  }

  /** A file read gives these bytes: the extents' contents, on the ordinary path. */
  ghost predicate Gives(s: Source, e: Entry, offset: nat, n: nat, bytes: Bytes)
    requires s.chunkSize > 0
  {
    offset + n <= EndOf(e.extents, |e.extents|) && bytes == Flat(s, e.extents, |e.extents|)[offset..offset + n]
  }

  /** Every extent under the range can be read, and no extent ends past 64 bits. */
  ghost predicate ExtentsRead(s: Source, extents: seq<Extent>, from: nat, to: nat) {
    && EndOf(extents, |extents|) < U64
    && forall k | 0 <= k < |extents| :: ExtentReads(s, extents, k, from, to)
  }

  /** The loop over the extents of an ordinary entry. Succeeds exactly when every part of the
      range can be read and the extents reach to its end; then the buffer holds that slice of
      the flattened extents. */
  method ReadExtents(s: Source, extents: seq<Extent>, buf: array<Byte>, n: nat, offset: nat) returns (r: Result<nat>)
    requires Sized(s) && s.chunkSize > 0 && 0 < n <= buf.Length
    modifies buf
    ensures r.Ok? <==> ExtentsRead(s, extents, offset, offset + n) && offset + n <= EndOf(extents, |extents|)
    ensures r.Ok? ==> r.value == n && buf[..n] == Flat(s, extents, |extents|)[offset..offset + n]
    ensures forall i | n <= i < buf.Length :: buf[i] == old(buf[i])
  {
    hide Flat, MediaSlice, Sized, Readable, Covered, ExtentBytes, ExtentReads;
    var copied, filePosition := 0, 0;
    ghost var to := offset + n;
    CoveredByNone(s, extents, offset, to);
    for k := 0 to |extents|
      invariant filePosition == EndOf(extents, k) && filePosition < U64
      invariant HasCovered(buf[..], copied, s, extents, k, offset, to)
      invariant forall j | 0 <= j < k :: ExtentReads(s, extents, j, offset, to)
      invariant forall i | n <= i < buf.Length :: buf[i] == old(buf[i])
    {
      var start := filePosition;
      filePosition := start + extents[k].dataSize;
      EndsGrow(extents, k + 1, |extents|);
      if filePosition >= U64 { return Err; }
      var part := ReadExtent(s, extents, k, buf, n, offset, start, copied);
      if part.Err? { return Err; }
      copied := part.value;
    }
    CoveredByAll(s, extents, offset, to);
    if copied != n { return Err; }
    assert buf[..][..n] == buf[..n];
    return Ok(copied);
  }

  /** The buffer starts with what the first `k` extents have of the range. */
  ghost predicate HasCovered(buf: Bytes, copied: nat, s: Source, extents: seq<Extent>, k: nat, from: nat, to: nat)
    requires s.chunkSize > 0 && k <= |extents| && from <= to
  {
    copied <= |buf| && buf[..copied] == Covered(s, extents, k, from, to)
  }

  /** The body of the loop: reads the part of extent `k` that is in the range. */
  method ReadExtent(s: Source, extents: seq<Extent>, k: nat, buf: array<Byte>, n: nat, offset: nat, start: nat,
                    copied: nat)
    returns (r: Result<nat>)
    requires Sized(s) && s.chunkSize > 0 && 0 < n <= buf.Length
    requires k < |extents| && start == EndOf(extents, k)
            && HasCovered(buf[..], copied, s, extents, k, offset, offset + n)
    modifies buf
    ensures r.Ok? <==> ExtentReads(s, extents, k, offset, offset + n)
    ensures r.Ok? ==> HasCovered(buf[..], r.value, s, extents, k + 1, offset, offset + n)
    ensures forall i | n <= i < buf.Length :: buf[i] == old(buf[i])
  {
    hide *;
    ghost var to := offset + n;
    var end := start + extents[k].dataSize;
    var readStart, readEnd := Max(offset, start), Min(offset + n, end);
    PartDecides(s, extents, k, offset, to);
    var lo, hi := readStart - offset, readEnd - offset;
    ghost var before := buf[..];
    if readStart >= readEnd {
      NothingIsAdded(s, extents, k, offset, to, before, copied);
      return Ok(copied);
    }
    var ok := ReadPart(s, extents[k], buf, lo, hi, readStart - start);
    if !ok { return Err; }
    assert buf[..][lo..hi] == buf[lo..hi];
    assert buf[..][..lo] == before[..lo];
    PartIsAdded(s, extents, k, offset, to, before, copied, buf[..], readStart, readEnd);
    return Ok(hi);
  }

  lemma PartDecides(s: Source, extents: seq<Extent>, k: nat, from: nat, to: nat)
    requires s.chunkSize > 0 && k < |extents| && from < to
    ensures EndOf(extents, k + 1) == EndOf(extents, k) + extents[k].dataSize
    ensures var start, end := Max(from, EndOf(extents, k)), Min(to, EndOf(extents, k + 1));
            && (start < end ==>
                  from <= start && end <= to && EndOf(extents, k) <= start && end <= EndOf(extents, k + 1))
            && (ExtentReads(s, extents, k, from, to)
                <==> start >= end || PartReads(s, extents[k], start - EndOf(extents, k), end - start))
  {
    hide PartReads;
  }

  lemma NothingIsAdded(s: Source, extents: seq<Extent>, k: nat, from: nat, to: nat, before: Bytes, copied: nat)
    requires s.chunkSize > 0 && k < |extents| && from < to
    requires HasCovered(before, copied, s, extents, k, from, to)
    requires Max(from, EndOf(extents, k)) >= Min(to, EndOf(extents, k + 1))
    ensures HasCovered(before, copied, s, extents, k + 1, from, to)
  {
    hide Flat, Covered, ExtentBytes;
    CoveredGrows(s, extents, k, from, to);
  }

  /** Writing the part of extent `k` where it belongs extends what the buffer has. */
  lemma PartIsAdded(s: Source, extents: seq<Extent>, k: nat, from: nat, to: nat, before: Bytes, copied: nat,
                    after: Bytes, start: nat, end: nat)
    requires s.chunkSize > 0 && k < |extents| && from < to
    requires HasCovered(before, copied, s, extents, k, from, to)
    requires start == Max(from, EndOf(extents, k)) < end == Min(to, EndOf(extents, k + 1))
    requires end - from <= |before| == |after| && after[..start - from] == before[..start - from]
    requires EndOf(extents, k + 1) == EndOf(extents, k) + extents[k].dataSize && from <= start
            && EndOf(extents, k) <= start && end <= EndOf(extents, k + 1)
    requires after[start - from..end - from]
            == ExtentBytes(s, extents[k])[start - EndOf(extents, k)..end - EndOf(extents, k)]
    ensures HasCovered(after, end - from, s, extents, k + 1, from, to)
  {
    hide *;
    var part := ExtentBytes(s, extents[k])[start - EndOf(extents, k)..end - EndOf(extents, k)];
    CopiedSoFar(s, extents, k, from, to, before, copied, start, end);
    PartIsAppended(before, after, start - from, end - from, part);
    CoveredStep(s, extents, k, from, to, start, end);
    HasCoveredMeans(after, end - from, s, extents, k + 1, from, to);
  }

  lemma CoveredStep(s: Source, extents: seq<Extent>, k: nat, from: nat, to: nat, start: nat, end: nat)
    requires s.chunkSize > 0 && k < |extents| && from < to
    requires start == Max(from, EndOf(extents, k)) < end == Min(to, EndOf(extents, k + 1))
    requires EndOf(extents, k + 1) == EndOf(extents, k) + extents[k].dataSize && EndOf(extents, k) <= start
            && end <= EndOf(extents, k + 1)
    ensures Covered(s, extents, k + 1, from, to)
            == Covered(s, extents, k, from, to)
                + ExtentBytes(s, extents[k])[start - EndOf(extents, k)..end - EndOf(extents, k)]
  {
    hide Covered, Flat, ExtentBytes;
    CoveredGrows(s, extents, k, from, to);
  }

  lemma HasCoveredMeans(buf: Bytes, copied: nat, s: Source, extents: seq<Extent>, k: nat, from: nat, to: nat)
    requires s.chunkSize > 0 && k <= |extents| && from <= to
    ensures HasCovered(buf, copied, s, extents, k, from, to)
            <==> copied <= |buf| && buf[..copied] == Covered(s, extents, k, from, to)
  {
    hide Covered;
  }

  lemma CopiedSoFar(s: Source, extents: seq<Extent>, k: nat, from: nat, to: nat, before: Bytes, copied: nat,
                    start: nat, end: nat)
    requires s.chunkSize > 0 && k < |extents| && from < to
    requires HasCovered(before, copied, s, extents, k, from, to)
    requires start == Max(from, EndOf(extents, k)) < end == Min(to, EndOf(extents, k + 1))
    ensures copied == start - from && before[..start - from] == Covered(s, extents, k, from, to)
  {
    hide Covered, EndOf;
    CoveredSize(s, extents, k, from, to);
  }

  lemma PartIsAppended(before: Bytes, after: Bytes, lo: nat, hi: nat, part: Bytes)
    requires lo <= hi <= |before| == |after| && after[lo..hi] == part
    requires after[..lo] == before[..lo]
    ensures after[..hi] == before[..lo] + part
  {
    assert after[..hi] == after[..lo] + after[lo..hi];
  }

  lemma CoveredSize(s: Source, extents: seq<Extent>, k: nat, from: nat, to: nat)
    requires s.chunkSize > 0 && k <= |extents| && from <= to
    ensures |Covered(s, extents, k, from, to)| == Max(0, Min(to, EndOf(extents, k)) - from)
  {
    hide Flat;
  }

  lemma CoveredByNone(s: Source, extents: seq<Extent>, from: nat, to: nat)
    requires s.chunkSize > 0 && from <= to
    ensures Covered(s, extents, 0, from, to) == []
  {}

  lemma CoveredByAll(s: Source, extents: seq<Extent>, from: nat, to: nat)
    requires s.chunkSize > 0 && from < to
    ensures |Covered(s, extents, |extents|, from, to)| == to - from <==> to <= EndOf(extents, |extents|)
    ensures to <= EndOf(extents, |extents|) ==>
            Covered(s, extents, |extents|, from, to) == Flat(s, extents, |extents|)[from..to]
  {}

  /** One extent's part: `buf[lo..hi]` gets the bytes from `relative` on. */
  method ReadPart(s: Source, x: Extent, buf: array<Byte>, lo: nat, hi: nat, relative: nat) returns (ok: bool)
    requires Sized(s) && s.chunkSize > 0 && lo < hi <= buf.Length && relative + (hi - lo) <= x.dataSize
    modifies buf
    ensures ok <==> PartReads(s, x, relative, hi - lo)
    ensures ok ==> buf[lo..hi] == ExtentBytes(s, x)[relative..relative + (hi - lo)]
    ensures forall i | 0 <= i < buf.Length && !(lo <= i < hi) :: buf[i] == old(buf[i])
  {
    hide MediaSlice, Sized, Readable;
    if x.sparse {
      Copy(buf, lo, Zeros(hi - lo));
      assert Zeros(x.dataSize)[relative..relative + (hi - lo)] == Zeros(hi - lo);
      return true;
    }
    var imageOffset := x.dataOffset + relative;
    if imageOffset >= U64 { return false; }
    var read := ReadAt(s, buf, lo, hi, imageOffset);
    if read.Err? || read.value != hi - lo { return false; }
    SliceOfMediaSlice(s, x.dataOffset, x.dataSize, relative, relative + (hi - lo));
    return true;
  }

  /** `read_single_file_at_impl`, with its duplicate and repeated-byte paths. */
  method ReadSingleFileAt(s: Source, e: Entry, buf: array<Byte>, offset: nat) returns (r: Result<nat>)
    requires Sized(s) && s.chunkSize > 0
    modifies buf
    ensures r.Ok? ==> r.value <= buf.Length
    ensures FileSize(e).Ok? && r.Ok? ==> r.value == ToRead(FileSize(e).value, offset, buf.Length)
    ensures forall i | 0 <= i < buf.Length && FileSize(e).Ok?
            && i >= ToRead(FileSize(e).value, offset, buf.Length) :: buf[i] == old(buf[i])
    ensures r.Ok? && r.value > 0 && Ordinary(e) ==> Gives(s, e, offset, r.value, buf[..r.value])
    ensures r.Ok? && r.value > 0 && IsDuplicate(e) ==>
            buf[..r.value] == MediaSlice(s, e.duplicate.value + offset, r.value)
    ensures r.Ok? && r.value > 0 && !Ordinary(e) && !IsDuplicate(e) ==>
              e.extents != [] && buf[..r.value] == Repeated(MediaByte(s, e.extents[0].dataOffset), r.value)
    ensures Ordinary(e) && buf.Length > 0 ==>
              (r.Ok? <==> FileSize(e).Ok?
                          && var n := ToRead(FileSize(e).value, offset, buf.Length);
                             n == 0 || (ExtentsRead(s, e.extents, offset, offset + n)
                                        && offset + n <= EndOf(e.extents, |e.extents|)))
    ensures IsDuplicate(e) && buf.Length > 0 ==>
              (r.Ok? <==> FileSize(e).Ok?
                          && var n := ToRead(FileSize(e).value, offset, buf.Length);
                             n == 0 || PartReads(s, Extent(e.duplicate.value, FileSize(e).value, false), offset, n))
    ensures !Ordinary(e) && !IsDuplicate(e) && buf.Length > 0 ==>
              (r.Ok? <==> FileSize(e).Ok?
                          && (ToRead(FileSize(e).value, offset, buf.Length) == 0 || StoresByte(s, e.extents)))
    ensures buf.Length == 0 ==> r == Ok(0)
  {
    hide Flat, MediaSlice, Sized, Readable, ExtentsRead, MediaByte;
    if buf.Length == 0 { return Ok(0); }
    var size :- FileSize(e);
    if offset >= size { return Ok(0); }
    var n := Min(buf.Length, size - offset);
    if IsDuplicate(e) {
      if e.duplicate.value + offset >= U64 { return Err; }
      var read := ReadAt(s, buf, 0, n, e.duplicate.value + offset);
      if read.Err? || read.value != n { return Err; }
      return read;
    }
    if e.repeats {
      if e.extents == [] || e.extents[0].sparse || e.extents[0].dataSize < 1 { return Err; }
      var byte := new Byte[1](_ => 0);
      var read := ReadAt(s, byte, 0, 1, e.extents[0].dataOffset);
      if read.Err? || read.value != 1 { return Err; }
      SliceOfOne(s, e.extents[0].dataOffset);
      assert byte[..][0] == byte[0] && byte[0..1] == [byte[0]];
      Copy(buf, 0, Repeated(byte[0], n));
      return Ok(n);
    }
    r := ReadExtents(s, e.extents, buf, n, offset);
  }

  /** The first extent has the byte that the file repeats. */
  ghost predicate StoresByte(s: Source, extents: seq<Extent>) {
    && extents != [] && !extents[0].sparse && extents[0].dataSize > 0
    && extents[0].dataOffset < s.logicalSize && Readable(s, extents[0].dataOffset, 1)
  }

  predicate IsDuplicate(e: Entry) { e.duplicate.Some? && (e.extents == [] || e.repeats) }

  predicate Ordinary(e: Entry) { !IsDuplicate(e) && !e.repeats }

  function Repeated(b: Byte, n: nat): Bytes { seq<Byte>(n, _ => b) }

  lemma SliceOfOne(s: Source, offset: nat)
    requires s.chunkSize > 0
    ensures MediaSlice(s, offset, 1) == [MediaByte(s, offset)]
  {}

  /** Extents that lie in readable media can be read, so that running short of them is the only error. */
  lemma BackedExtentsAreRead(s: Source, e: Entry, offset: nat, n: nat)
    requires AllDecode(s) && Sized(s)
    requires EndOf(e.extents, |e.extents|) < U64 && s.logicalSize < U64
    requires forall k | 0 <= k < |e.extents|
            && !e.extents[k].sparse :: e.extents[k].dataOffset + e.extents[k].dataSize <= s.logicalSize
    ensures ExtentsRead(s, e.extents, offset, offset + n)
  {
    hide AllDecode, Readable, Sized;
    var to := offset + n;
    forall k | 0 <= k < |e.extents| ensures ExtentReads(s, e.extents, k, offset, to) {
      var start, end := Max(offset, EndOf(e.extents, k)), Min(to, EndOf(e.extents, k + 1));
      if start < end && !e.extents[k].sparse {
        ReadsAreSlicesOfTheMedia(s, e.extents[k].dataOffset + (start - EndOf(e.extents, k)), end - start);
      }
    }
  }
}
