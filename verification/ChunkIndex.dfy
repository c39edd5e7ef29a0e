/** The index from chunk numbers to table ranges (src/index.rs). */
module ChunkIndex {
  import opened Basics
  import Sorting

  /** A run of chunks and where its table is. */
  datatype ChunkRange<T> = ChunkRange(first: nat, count: nat, table: T)
  {
    function End(): nat { first + count }
  }

  datatype Index<T> = Index(logicalChunks: nat, ranges: seq<ChunkRange<T>>)

  function ChunkCount(logicalSize: nat, chunkSize: nat): Result<nat> {
    if chunkSize == 0 then Err
    else if logicalSize == 0 then Ok(0)
    else Ok((logicalSize - 1) / chunkSize + 1)
  }

  // ---------------------------------------------------------------- sorting

  function StartOf<T>(r: ChunkRange<T>): nat { r.first }

  /** The stable sort by first chunk. */
  function Sorted<T>(ranges: seq<ChunkRange<T>>): (s: seq<ChunkRange<T>>)
    ensures |s| == |ranges| && multiset(s) == multiset(ranges)
  {
    Sorting.SortedBy(StartOf, ranges)
  }

  // ---------------------------------------------------------------- building the index

  function NextFirst<T>(ranges: seq<ChunkRange<T>>, k: nat): nat
    requires k <= |ranges|
  {
    if k == 0 then 0 else ranges[k - 1].End()
  }

  predicate Follows<T>(ranges: seq<ChunkRange<T>>, k: nat)
    requires k < |ranges|
  {
    ranges[k].count > 0 && ranges[k].first == NextFirst(ranges, k)
  }

  /** The ranges split the chunks `0..n` into consecutive runs. */
  ghost predicate Partitions<T>(ranges: seq<ChunkRange<T>>, n: nat) {
    (forall k | 0 <= k < |ranges| :: Follows(ranges, k)) && NextFirst(ranges, |ranges|) == n
  }

  /** `LazyChunkIndex::new` */
  method NewIndex<T>(ranges: seq<ChunkRange<T>>, logicalSize: nat, chunkSize: nat) returns (r: Result<Index<T>>)
    requires logicalSize < U64
    ensures r.Ok? <==> && ChunkCount(logicalSize, chunkSize).Ok?
                       && Partitions(Sorted(ranges), ChunkCount(logicalSize, chunkSize).value)
    ensures r.Ok? ==> r.value == Index(ChunkCount(logicalSize, chunkSize).value, Sorted(ranges))
  {
    var logicalChunks :- ChunkCount(logicalSize, chunkSize);
    CountsFit(logicalSize, chunkSize);
    var sorted := Sorted(ranges);
    var expectedNext := 0;
    for k := 0 to |sorted|
      invariant expectedNext == NextFirst(sorted, k)
      invariant forall j | 0 <= j < k :: Follows(sorted, j)
      invariant Partitions(sorted, logicalChunks) ==> expectedNext <= logicalChunks
    {
      if sorted[k].count == 0 || sorted[k].first < expectedNext || sorted[k].first > expectedNext {
        assert !Follows(sorted, k);
        return Err;
      }
      ghost var within := Partitions(sorted, logicalChunks);
      if within { EndsWithin(sorted, logicalChunks, k + 1); }
      expectedNext := sorted[k].End();
      if expectedNext >= U64 { return Err; }
    }
    if expectedNext != logicalChunks { return Err; }
    return Ok(Index(logicalChunks, sorted));
  }

  lemma CountsFit(logicalSize: nat, chunkSize: nat)
    requires logicalSize < U64 && chunkSize > 0
    ensures ChunkCount(logicalSize, chunkSize).value < U64
  {
    if logicalSize > 0 { DivisionShrinks(logicalSize - 1, chunkSize); }
  }

  lemma DivisionShrinks(a: nat, b: nat)
    requires b > 0
    ensures a / b <= a
  {
    var q := a / b;
    assert a == b * q + a % b;
    ProductGrows(b, q);
  }

  lemma {:induction false} ProductGrows(b: nat, q: nat)
    requires b > 0
    ensures q <= b * q
  {
    if b > 1 {
      ProductGrows(b - 1, q);
      assert b * q == (b - 1) * q + q;
    }
  }

  lemma {:induction false} EndsWithin<T>(ranges: seq<ChunkRange<T>>, n: nat, k: nat)
    requires Partitions(ranges, n) && k <= |ranges|
    ensures NextFirst(ranges, k) <= n
    decreases |ranges| - k
  {
    if k < |ranges| {
      EndsWithin(ranges, n, k + 1);
      assert Follows(ranges, k);
    }
  }

  lemma {:induction false} EndsGrow<T>(ranges: seq<ChunkRange<T>>, n: nat, i: nat, j: nat)
    requires Partitions(ranges, n) && i < j < |ranges|
    ensures ranges[i].End() <= ranges[j].first < ranges[j].End()
    decreases j
  {
    assert Follows(ranges, j) && Follows(ranges, j - 1);
    if i < j - 1 { EndsGrow(ranges, n, i, j - 1); }
  }

  /** An order in which the ranges partition the image's chunks is the one sorting gives. */
  lemma PartitionIsSorted<T>(ranges: seq<ChunkRange<T>>, arranged: seq<ChunkRange<T>>, n: nat)
    requires multiset(arranged) == multiset(ranges) && Partitions(arranged, n)
    ensures Sorted(ranges) == arranged
  {
    forall i, j | 0 <= i < j < |arranged| ensures arranged[i].first < arranged[j].first {
      assert Follows(arranged, i);
      EndsGrow(arranged, n, i, j);
    }
    Sorting.SortedIsOrdered(StartOf, ranges);
    assert |multiset(arranged)| == |arranged| && |multiset(ranges)| == |ranges|;
    Sorting.OneArrangement(StartOf, Sorted(ranges), arranged);
  }

  /** So the index is built exactly when the ranges, in some order, partition the chunks. */
  lemma IndexIsBuiltExactlyForPartitions<T>(ranges: seq<ChunkRange<T>>, n: nat)
    ensures Partitions(Sorted(ranges), n)
            <==> exists arranged :: multiset(arranged) == multiset(ranges) && Partitions(arranged, n)
  {
    if arranged :| multiset(arranged) == multiset(ranges) && Partitions(arranged, n) {
      PartitionIsSorted(ranges, arranged, n);
    }
  }

  // ---------------------------------------------------------------- finding a range

  /** `partition_point` over the ranges' ends, between `lo` and `hi`. */
  function PartitionPoint<T>(ranges: seq<ChunkRange<T>>, id: nat, lo: nat, hi: nat): (k: nat)
    requires lo <= hi <= |ranges|
    ensures lo <= k <= hi
    decreases hi - lo
  {
    if lo == hi then lo
    else
      var mid := (lo + hi) / 2;
      if ranges[mid].End() <= id then PartitionPoint(ranges, id, mid + 1, hi) else PartitionPoint(ranges, id, lo, mid)
  }

  function RangeIndexFor<T>(index: Index<T>, id: nat): Result<nat> {
    if id >= index.logicalChunks then Err
    else
      var k := PartitionPoint(index.ranges, id, 0, |index.ranges|);
      if k < |index.ranges| && id >= index.ranges[k].first then Ok(k) else Err
  }

  lemma {:induction false} PointIsFirstBeyond<T>(ranges: seq<ChunkRange<T>>, n: nat, id: nat, lo: nat, hi: nat)
    requires Partitions(ranges, n) && lo <= hi <= |ranges|
    requires NextFirst(ranges, lo) <= id
    requires hi < |ranges| ==> id < ranges[hi].End()
    ensures var k := PartitionPoint(ranges, id, lo, hi);
            && NextFirst(ranges, k) <= id
            && (k < |ranges| ==> id < ranges[k].End())
    decreases hi - lo
  {
    if lo < hi {
      var mid := (lo + hi) / 2;
      if ranges[mid].End() <= id {
        PointIsFirstBeyond(ranges, n, id, mid + 1, hi);
      } else {
        PointIsFirstBeyond(ranges, n, id, lo, mid);
      }
    }
  }

  predicate Covers<T>(range: ChunkRange<T>, id: nat) { range.first <= id < range.End() }

  /** Every chunk of the image has exactly one range, and the search finds it. */
  lemma SearchFindsTheRange<T>(index: Index<T>, id: nat)
    requires Partitions(index.ranges, index.logicalChunks)
    ensures RangeIndexFor(index, id).Ok? <==> id < index.logicalChunks
    ensures id < index.logicalChunks ==>
              var k := RangeIndexFor(index, id).value;
              && k < |index.ranges| && Covers(index.ranges[k], id)
              && forall j | 0 <= j < |index.ranges| && Covers(index.ranges[j], id) :: j == k
  {
    if id < index.logicalChunks {
      PointIsFirstBeyond(index.ranges, index.logicalChunks, id, 0, |index.ranges|);
      var k := PartitionPoint(index.ranges, id, 0, |index.ranges|);
      assert Follows(index.ranges, k);
      forall j | 0 <= j < |index.ranges| && Covers(index.ranges[j], id) ensures j == k {
        if j < k { EndsGrow(index.ranges, index.logicalChunks, j, k); }
        if k < j { EndsGrow(index.ranges, index.logicalChunks, k, j); }
      }
    }
  }
}
