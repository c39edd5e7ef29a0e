/** The byte-budgeted cache of table pages (src/reader_cache.rs) and reads through it
    (src/image.rs, `read_table_bytes_at`). */
module TablePages {
  import opened Basics

  const PAGE_SIZE: nat := 4096

  datatype Key = Key(segment: nat, offset: nat)
  datatype Page = Page(key: Key, bytes: Bytes)

  /** `pages` in order of use, the least recently used first. */
  datatype Cache = Cache(pages: seq<Page>, capacity: nat, cachedBytes: nat, peakBytes: nat)

  function Size(pages: seq<Page>): nat {
    if pages == [] then 0 else |pages[0].bytes| + Size(pages[1..])
  }

  predicate Distinct(pages: seq<Page>) {
    forall i, j | 0 <= i < j < |pages| :: pages[i].key != pages[j].key
  }

  predicate Within(cachedBytes: nat, peakBytes: nat, capacity: nat) {
    cachedBytes <= peakBytes <= capacity
  }

  /** The counters tell the truth, and the budget holds. */
  ghost predicate Valid(c: Cache) {
    Distinct(c.pages) && c.cachedBytes == Size(c.pages) && Within(c.cachedBytes, c.peakBytes, c.capacity)
  }

  /** The page at `key`: a slice of its segment, short only at the segment's end. */
  function PageOf(files: seq<Bytes>, key: Key): Bytes {
    if key.segment < |files| && key.offset <= |files[key.segment]| then
      var file := files[key.segment];
      file[key.offset..if key.offset + PAGE_SIZE < |file| then key.offset + PAGE_SIZE else |file|]
    else []
  }

  /** Every cached page is what the segment has there. */
  ghost predicate Truthful(c: Cache, files: seq<Bytes>) {
    forall i | 0 <= i < |c.pages| :: c.pages[i].bytes == PageOf(files, c.pages[i].key)
  }

  // ---------------------------------------------------------------- the cache's operations

  /** Where `key` is among the pages, or their number. */
  function Find(pages: seq<Page>, key: Key): (k: nat)
    ensures k <= |pages|
    ensures k < |pages| ==> pages[k].key == key
    ensures forall j | 0 <= j < k :: pages[j].key != key
  {
    if pages == [] || pages[0].key == key then 0 else 1 + Find(pages[1..], key)
  }

  function Without(pages: seq<Page>, k: nat): seq<Page>
    requires k < |pages|
  {
    pages[..k] + pages[k + 1..]
  }

  /** Looking a page up makes it the most recently used. */
  function Get(c: Cache, key: Key): (Cache, Option<Bytes>) {
    var k := Find(c.pages, key);
    if k == |c.pages| then (c, None)
    else (c.(pages := Without(c.pages, k) + [c.pages[k]]), Some(c.pages[k].bytes))
  }

  /** How many of the least recently used pages have to go for `size` more bytes. */
  function Evicted(pages: seq<Page>, size: nat, capacity: nat): (k: nat)
    ensures k <= |pages|
    ensures size <= capacity ==> Size(pages[k..]) + size <= capacity
    ensures k > 0 ==> Size(pages[k - 1..]) + size > capacity
  {
    if pages == [] || Size(pages) + size <= capacity then 0
    else
      var k := Evicted(pages[1..], size, capacity);
      assert pages[1..][k..] == pages[k + 1..];
      assert k > 0 ==> pages[1..][k - 1..] == pages[k..];
      k + 1
  }

  function Dropped(pages: seq<Page>, key: Key): seq<Page> {
    var k := Find(pages, key);
    if k == |pages| then pages else Without(pages, k)
  }

  /** Inserting keeps the longest run of most recently used pages that leaves room. */
  function Insert(c: Cache, key: Key, bytes: Bytes): Cache {
    if c.capacity == 0 || |bytes| > c.capacity then c
    else
      var others := Dropped(c.pages, key);
      var kept := others[Evicted(others, |bytes|, c.capacity)..];
      var cached := Size(kept) + |bytes|;
      Cache(kept + [Page(key, bytes)], c.capacity, cached, if cached > c.peakBytes then cached else c.peakBytes)
  }

  // ---------------------------------------------------------------- what they keep

  lemma {:induction false} SizeOfConcatenation(a: seq<Page>, b: seq<Page>)
    ensures Size(a + b) == Size(a) + Size(b)
  {
    if a == [] {
      assert a + b == b;
    } else {
      assert (a + b)[1..] == a[1..] + b;
      SizeOfConcatenation(a[1..], b);
    }
  }

  lemma SizeOfOne(p: Page)
    ensures Size([p]) == |p.bytes|
  {}

  lemma SizeWithout(pages: seq<Page>, k: nat)
    requires k < |pages|
    ensures Size(pages) == Size(Without(pages, k)) + |pages[k].bytes|
  {
    assert pages == pages[..k] + ([pages[k]] + pages[k + 1..]);
    SizeOfConcatenation(pages[..k], [pages[k]] + pages[k + 1..]);
    SizeOfConcatenation([pages[k]], pages[k + 1..]);
    SizeOfConcatenation(pages[..k], pages[k + 1..]);
    SizeOfOne(pages[k]);
  }

  lemma WithoutKeeps(pages: seq<Page>, k: nat)
    requires Distinct(pages) && k < |pages|
    ensures |Without(pages, k)| == |pages| - 1 && Distinct(Without(pages, k))
    ensures forall i | 0 <= i < |pages| - 1 :: Without(pages, k)[i] == pages[if i < k then i else i + 1]
    ensures forall i | 0 <= i < |pages| - 1 :: Without(pages, k)[i].key != pages[k].key
  {}

  lemma DroppedKeeps(pages: seq<Page>, key: Key)
    requires Distinct(pages)
    ensures Distinct(Dropped(pages, key))
            && forall i | 0 <= i < |Dropped(pages, key)| :: Dropped(pages, key)[i].key != key
    ensures forall p <- Dropped(pages, key) :: p in pages
  {
    hide Without;
    var k := Find(pages, key);
    if k < |pages| { WithoutKeeps(pages, k); }
  }

  lemma GetKeeps(c: Cache, key: Key, files: seq<Bytes>)
    requires Valid(c) && Truthful(c, files)
    ensures Valid(Get(c, key).0) && Truthful(Get(c, key).0, files)
    ensures Get(c, key).1.Some? ==> Get(c, key).1.value == PageOf(files, key)
  {
    hide PageOf, Without;
    var k := Find(c.pages, key);
    if k < |c.pages| {
      SizeWithout(c.pages, k);
      WithoutKeeps(c.pages, k);
      SizeOfConcatenation(Without(c.pages, k), [c.pages[k]]);
      SizeOfOne(c.pages[k]);
    }
  }

  lemma InsertKeeps(c: Cache, key: Key, files: seq<Bytes>)
    requires Valid(c) && Truthful(c, files)
    ensures Valid(Insert(c, key, PageOf(files, key))) && Truthful(Insert(c, key, PageOf(files, key)), files)
  {
    hide PageOf, Dropped, Evicted;
    var bytes := PageOf(files, key);
    if c.capacity > 0 && |bytes| <= c.capacity {
      DroppedKeeps(c.pages, key);
      var others := Dropped(c.pages, key);
      var kept := others[Evicted(others, |bytes|, c.capacity)..];
      forall i | 0 <= i < |kept| ensures kept[i].bytes == PageOf(files, kept[i].key) {
        assert kept[i] in others && kept[i] in c.pages;
        var j :| 0 <= j < |c.pages| && c.pages[j] == kept[i];
      }
      SizeOfConcatenation(kept, [Page(key, bytes)]);
      SizeOfOne(Page(key, bytes));
    }
  }

  // ---------------------------------------------------------------- the cache object

  class TablePageCache {
    var pages: seq<Page>
    const capacityBytes: nat
    var cachedBytes: nat
    var peakBytes: nat

    function View(): Cache
      reads this
    {
      Cache(pages, capacityBytes, cachedBytes, peakBytes)
    }

    constructor (capacity: nat)
      ensures View() == Cache([], capacity, 0, 0) && Valid(View())
    {
      pages, capacityBytes, cachedBytes, peakBytes := [], capacity, 0, 0;
    }

    method GetPage(key: Key) returns (page: Option<Bytes>)
      modifies this`pages
      ensures (View(), page) == Get(old(View()), key)
    {
      var k := Find(pages, key);
      if k == |pages| { return None; }
      page := Some(pages[k].bytes);
      pages := Without(pages, k) + [pages[k]];
    }

    /** Pops the key's old page, then pages from the front until the new one fits. */
    method InsertPage(key: Key, bytes: Bytes)
      requires Valid(View())
      modifies this
      ensures View() == Insert(old(View()), key, bytes)
    {
      hide Dropped, Evicted;
      if capacityBytes == 0 || |bytes| > capacityBytes { return; }
      Forget(key);
      ghost var others := pages;
      ghost var k := Evicted(others, |bytes|, capacityBytes);
      ghost var n := 0;
      while cachedBytes + |bytes| > capacityBytes && pages != []
        invariant n <= k && pages == others[n..] && cachedBytes == Size(pages) && peakBytes == old(peakBytes)
        decreases |pages|
      {
        assert n < k;
        cachedBytes := SaturatingSub(cachedBytes, |pages[0].bytes|);
        pages := pages[1..];
        n := n + 1;
      }
      assert n == k by { if n < k { SuffixesShrink(others, n, k - 1); } }
      cachedBytes := cachedBytes + |bytes|;
      if peakBytes < cachedBytes { peakBytes := cachedBytes; }
      pages := pages + [Page(key, bytes)];
    }

    method Forget(key: Key)
      requires cachedBytes == Size(pages)
      modifies this`pages, this`cachedBytes
      ensures pages == Dropped(old(pages), key) && cachedBytes == Size(pages)
    {
      var k := Find(pages, key);
      if k < |pages| {
        SizeWithout(pages, k);
        cachedBytes := SaturatingSub(cachedBytes, |pages[k].bytes|);
        pages := Without(pages, k);
      }
    }
  }

  lemma {:induction false} SuffixesShrink(pages: seq<Page>, i: nat, j: nat)
    requires i <= j <= |pages|
    ensures Size(pages[j..]) <= Size(pages[i..])
    decreases j - i
  {
    if i < j {
      SuffixesShrink(pages, i + 1, j);
      assert pages[i..][1..] == pages[i + 1..];
    }
  }

  // ---------------------------------------------------------------- reading through the cache

  /** `read_segment_range`: clamped to the segment for pages, refused past its end otherwise. */
  function ReadSegmentRange(files: seq<Bytes>, segment: nat, offset: nat, size: nat, clamp: bool): Result<Bytes> {
    if segment >= |files| then Err
    else
      var file := files[segment];
      if clamp then
        if offset >= |file| || size == 0 then Err
        else Ok(file[offset..if offset + size < |file| then offset + size else |file|])
      else ReadExact(file, offset, size)
  }

  predicate InSegment(files: seq<Bytes>, segment: nat, offset: nat, size: nat) {
    segment < |files| && offset + size <= |files[segment]|
  }

  lemma PageCovers(files: seq<Bytes>, segment: nat, current: nat, n: nat)
    requires segment < |files| && n > 0
    requires var pageOffset := current - current % PAGE_SIZE;
             (current - pageOffset) + n <= |PageOf(files, Key(segment, pageOffset))|
    ensures var pageOffset := current - current % PAGE_SIZE;
            && current + n <= |files[segment]|
            && PageOf(files, Key(segment, pageOffset))[current - pageOffset..current - pageOffset + n]
                == files[segment][current..current + n]
  {}

  /** `read_table_bytes_at`: whatever the cache holds, a non-empty read succeeds exactly when
      the range lies in the segment, and gives the segment's bytes. */
  method ReadTableBytesAt(files: seq<Bytes>, cache: TablePageCache, segment: nat, offset: nat,
                          size: nat) returns (r: Result<Bytes>)
    requires Valid(cache.View()) && Truthful(cache.View(), files) && size > 0
    modifies cache
    ensures Valid(cache.View()) && Truthful(cache.View(), files)
    ensures r.Ok? <==> InSegment(files, segment, offset, size)
    ensures r.Ok? ==> r.value == files[segment][offset..offset + size]
  {
    hide PageOf, Valid, Truthful;
    if cache.capacityBytes == 0 {
      return ReadSegmentRange(files, segment, offset, size, false);
    }
    var output, current := [], offset;
    while |output| < size
      invariant |output| <= size && current == offset + |output|
      invariant output != [] ==>
              InSegment(files, segment, offset, |output|) && output == files[segment][offset..current]
      invariant Valid(cache.View()) && Truthful(cache.View(), files)
      decreases size - |output|
    {
      PageReaches(files, segment, current);
      var page := FetchPage(files, cache, segment, current - current % PAGE_SIZE);
      if page.Err? { return Err; }
      var within := current % PAGE_SIZE;
      var available := SaturatingSub(|page.value|, within);
      if available == 0 { return Err; }
      var take := if available < size - |output| then available else size - |output|;
      PageCovers(files, segment, current, take);
      output, current := output + page.value[within..within + take], current + take;
    }
    return Ok(output);
  }

  /** A page has bytes past `current` exactly when the segment does. */
  lemma PageReaches(files: seq<Bytes>, segment: nat, current: nat)
    ensures |PageOf(files, Key(segment, current - current % PAGE_SIZE))| > current % PAGE_SIZE
            <==> segment < |files| && current < |files[segment]|
  {}

  lemma PageIsRead(files: seq<Bytes>, key: Key)
    ensures ReadSegmentRange(files, key.segment, key.offset, PAGE_SIZE, true)
            == if PageOf(files, key) == [] then Err else Ok(PageOf(files, key))
  {}

  /** The page from the cache, or from the segment and then into the cache. */
  method FetchPage(files: seq<Bytes>, cache: TablePageCache, segment: nat,
                   pageOffset: nat) returns (page: Result<Bytes>)
    requires Valid(cache.View()) && Truthful(cache.View(), files)
    modifies cache
    ensures Valid(cache.View()) && Truthful(cache.View(), files)
    ensures page.Ok? ==> page.value == PageOf(files, Key(segment, pageOffset))
    ensures page.Err? ==> PageOf(files, Key(segment, pageOffset)) == []
  {
    hide Valid, Truthful, Get, Insert, PageOf, ReadSegmentRange;
    var key := Key(segment, pageOffset);
    PageIsRead(files, key);
    GetKeeps(cache.View(), key, files);
    var cached := cache.GetPage(key);
    if cached.Some? { return Ok(cached.value); }
    page := ReadSegmentRange(files, segment, pageOffset, PAGE_SIZE, true);
    if page.Ok? {
      InsertKeeps(cache.View(), key, files);
      cache.InsertPage(key, page.value);
    }
  }
}
