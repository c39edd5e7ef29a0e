/** Splitting chunks over segments by estimated size (src/writer.rs, `segment_groups` and the
    size estimates), and why a segment never outgrows its estimate. */
module SegmentSplit {
  import opened Basics
  import opened Ewf1Groups
  import Ewf1Sections
  import Ewf1Tables
  import Ewf1RoundTrip
  import Ewf1Image
  import Ewf2Sections
  import Ewf2Tables
  import ChunkCodec
  import Ewf2ReadBack

  datatype Kind = Ewf1Mirrored | Ewf1Smart | Ewf2

  /** Payload sizes of every section that some segment of the image has beside its chunks. */
  datatype Sides = Sides(kind: Kind, before: seq<nat>, after: seq<nat>)
  {
    function Descriptor(): nat { if kind.Ewf2? then Ewf2Sections.DESCRIPTOR_SIZE else Ewf1Sections.DESCRIPTOR_SIZE }
    function Header(): nat { if kind.Ewf2? then Ewf2Sections.FILE_HEADER_SIZE else Ewf1Sections.FILE_HEADER_SIZE }
  }

  function SectionTotal(sizes: seq<nat>, descriptor: nat): nat {
    if sizes == [] then 0 else SectionTotal(sizes[..|sizes| - 1], descriptor) + descriptor + sizes[|sizes| - 1]
  }

  /** The size of the sections that hold `count` chunks of `payload` bytes in `groups` tables. */
  function ChunkSections(kind: Kind, count: nat, payload: nat, groups: nat): nat {
    match kind
    case Ewf2 =>
      (Ewf2Sections.DESCRIPTOR_SIZE + Ewf2Tables.HEADER_SIZE + Ewf2Tables.ENTRY_SIZE * count + Ewf2Tables.FOOTER_SIZE)
      + (Ewf2Sections.DESCRIPTOR_SIZE + payload)
    case Ewf1Smart => groups * 100 + 4 * count + groups * 76 + payload
    case Ewf1Mirrored => 2 * (groups * 104 + 4 * count) + groups * 76 + payload
  }

  /** `estimated_segment_size`: every side section counts, whichever segment it will go to. */
  function EstimatedSize(o: Sides, count: nat, payload: nat, groups: nat): nat {
    o.Header() + SectionTotal(o.before, o.Descriptor()) + ChunkSections(o.kind, count, payload, groups)
    + SectionTotal(o.after, o.Descriptor()) + o.Descriptor()
  }

  // ---------------------------------------------------------------- counting groups incrementally

  /** The grouping state after the chunks `from..n`. */
  function StateFrom(sizes: seq<nat>, from: nat, n: nat): Result<GroupState>
    requires from <= n <= |sizes|
    decreases n
  {
    if n == from then Ok(NO_GROUP)
    else
      var before :- StateFrom(sizes, from, n - 1);
      before.AddChunk(sizes[n - 1], MAX_ENTRIES, MAX_PAYLOAD)
  }

  lemma {:induction false} StateOfSlice(sizes: seq<nat>, from: nat, n: nat, m: nat)
    requires from <= n <= m <= |sizes|
    ensures StateFrom(sizes, from, n) == StateAfter(sizes[from..m], n - from, MAX_ENTRIES, MAX_PAYLOAD)
    decreases n
  {
    hide GroupState.AddChunk;
    if n > from {
      StateOfSlice(sizes, from, n - 1, m);
      assert sizes[from..m][n - 1 - from] == sizes[n - 1];
    }
  }

  /** How many tables a segment of the chunks `from..n` gets; EWF2 segments have one. */
  function GroupsFor(kind: Kind, sizes: seq<nat>, from: nat, n: nat): Result<nat>
    requires from <= n <= |sizes|
  {
    if kind.Ewf2? then Ok(1)
    else
      var state :- StateFrom(sizes, from, n);
      Ok(if state.groupCount == 0 then 1 else state.groupCount)
  }

  function SliceEstimate(o: Sides, sizes: seq<nat>, from: nat, n: nat): Result<nat>
    requires from <= n <= |sizes|
  {
    var groups :- GroupsFor(o.kind, sizes, from, n);
    var size := EstimatedSize(o, n - from, Sum(sizes[from..n]), groups);
    if size >= U64 || Sum(sizes[from..n]) >= U64 then Err else Ok(size)
  }

  lemma {:induction false} SliceSum(sizes: seq<nat>, from: nat, n: nat)
    requires from <= n <= |sizes|
    ensures Sum(sizes[from..n]) <= Sum(sizes)
    decreases |sizes|
  {
    if sizes != [] {
      var init := sizes[..|sizes| - 1];
      if n < |sizes| {
        assert sizes[from..n] == init[from..n];
        SliceSum(init, from, n);
      } else if from < n {
        assert sizes[from..n][..n - from - 1] == init[from..n - 1];
        SliceSum(init, from, n - 1);
      } else {
        assert sizes[from..n] == [];
      }
    }
  }

  /** The largest estimate there can be: all chunks in one segment, each under its own table. */
  function LargestEstimate(o: Sides, sizes: seq<nat>): nat { EstimatedSize(o, |sizes|, Sum(sizes), |sizes| + 1) }

  /** While that fits 64 bits every estimate exists, so that splitting never fails. */
  lemma EstimatesExist(o: Sides, sizes: seq<nat>, from: nat, n: nat)
    requires from <= n <= |sizes| && LargestEstimate(o, sizes) < U64
    ensures SliceEstimate(o, sizes, from, n).Ok?
  {
    SliceSum(sizes, from, n);
    if !o.kind.Ewf2? {
      StateOfSlice(sizes, from, n, n);
      assert sizes[from..n][..n - from] == sizes[from..n];
      GroupingSucceeds(sizes[from..n], n - from, MAX_ENTRIES, MAX_PAYLOAD);
    }
    hide SectionTotal, Sum, StateFrom;
  }

  // ---------------------------------------------------------------- splitting

  datatype Range = Range(first: nat, end: nat)

  function StartOf(ranges: seq<Range>, k: nat): nat
    requires k <= |ranges|
  {
    if k == 0 then 0 else ranges[k - 1].end
  }

  /** Range `k` follows the one before it and, unless it is a single chunk, is estimated to fit. */
  ghost predicate FitsRange(ranges: seq<Range>, k: nat, o: Sides, sizes: seq<nat>, maximum: nat)
    requires k < |ranges|
  {
    && ranges[k].first == StartOf(ranges, k) && ranges[k].first < ranges[k].end <= |sizes|
    && (ranges[k].end - ranges[k].first > 1 ==>
          var size := SliceEstimate(o, sizes, ranges[k].first, ranges[k].end); size.Ok? && size.value <= maximum)
  }

  /** No range could have taken the next chunk as well. */
  ghost predicate IsFull(o: Sides, sizes: seq<nat>, r: Range, maximum: nat)
    requires r.first <= r.end < |sizes|
  {
    var size := SliceEstimate(o, sizes, r.first, r.end + 1);
    size.Ok? && size.value > maximum
  }

  ghost predicate IsSplit(ranges: seq<Range>, o: Sides, sizes: seq<nat>, upTo: nat, maximum: nat)
    requires upTo <= |sizes|
  {
    && (forall k | 0 <= k < |ranges| :: FitsRange(ranges, k, o, sizes, maximum))
    && StartOf(ranges, |ranges|) == upTo
  }

  ghost predicate AllFull(ranges: seq<Range>, o: Sides, sizes: seq<nat>, maximum: nat) {
    forall k | 0 <= k < |ranges| :: ranges[k].first <= ranges[k].end < |sizes| && IsFull(o, sizes, ranges[k], maximum)
  }

  lemma SplitGrows(ranges: seq<Range>, o: Sides, sizes: seq<nat>, first: nat, end: nat, maximum: nat)
    requires first < end <= |sizes| && IsSplit(ranges, o, sizes, first, maximum)
    requires end - first > 1 ==>
            SliceEstimate(o, sizes, first, end).Ok? && SliceEstimate(o, sizes, first, end).value <= maximum
    ensures IsSplit(ranges + [Range(first, end)], o, sizes, end, maximum)
  {
    hide SliceEstimate;
    var grown := ranges + [Range(first, end)];
    forall k | 0 <= k < |grown| ensures FitsRange(grown, k, o, sizes, maximum) {
      if k < |ranges| { assert FitsRange(ranges, k, o, sizes, maximum); }
      assert StartOf(grown, k) == StartOf(ranges, k);
    }
  }

  /** `segment_groups`: a partition into non-empty runs; each run of two or more chunks is
      estimated to fit with the table groups it will really get, and no run but the last could
      have taken one more chunk. */
  method SegmentGroups(sizes: seq<nat>, o: Sides, maximum: Option<nat>) returns (r: Result<seq<Range>>)
    ensures maximum.None? ==> r == Ok([Range(0, |sizes|)])
    ensures sizes == [] ==> r == Ok([Range(0, 0)])
    ensures r.Ok? && maximum.Some? && sizes != [] ==>
              IsSplit(r.value, o, sizes, |sizes|, maximum.value)
                  && AllFull(r.value[..|r.value| - 1], o, sizes, maximum.value)
    ensures r.Err? ==> exists i, j | 0 <= i < j <= |sizes| :: SliceEstimate(o, sizes, i, j).Err?
  {
    hide EstimatedSize, IsFull, GroupState.AddChunk;
    if maximum.None? { return Ok([Range(0, |sizes|)]); }
    var ranges: seq<Range> := [];
    var start, payload, state := 0, 0, NO_GROUP;
    for i := 0 to |sizes|
      invariant start <= i && (i > 0 ==> start < i) && payload == Sum(sizes[start..i])
      invariant i == 0 ==> ranges == [] && start == 0
      invariant o.kind.Ewf2? || StateFrom(sizes, start, i) == Ok(state)
      invariant IsSplit(ranges, o, sizes, start, maximum.value)
      invariant AllFull(ranges, o, sizes, maximum.value)
      invariant i - start > 1 ==>
              SliceEstimate(o, sizes, start, i).Ok? && SliceEstimate(o, sizes, start, i).value <= maximum.value
    {
      SumOfSliceStep(sizes, start, i);
      var proposed := Propose(o, sizes, start, i, payload, state);
      if proposed.Err? { return Err; }
      if i > start && proposed.value.1 > maximum.value {
        IsFullBecause(o, sizes, Range(start, i), maximum.value);
        SplitGrows(ranges, o, sizes, start, i, maximum.value);
        ranges := ranges + [Range(start, i)];
        start := i;
        var first := First(o, sizes, i);
        if first.Err? { return Err; }
        state := first.value;
        SumOfOne(sizes, i);
        payload := sizes[i];
      } else {
        state := proposed.value.0;
        payload := payload + sizes[i];
      }
    }
    if sizes != [] { SplitGrows(ranges, o, sizes, start, |sizes|, maximum.value); }
    ghost var before := ranges;
    ranges := ranges + [Range(start, |sizes|)];
    assert ranges[..|ranges| - 1] == before;
    return Ok(ranges);
  }

  lemma SumOfOne(sizes: seq<nat>, i: nat)
    requires i < |sizes|
    ensures Sum(sizes[i..i + 1]) == sizes[i]
  {
    assert sizes[i..i + 1] == [sizes[i]];
    assert [sizes[i]][..0] == [];
  }

  lemma IsFullBecause(o: Sides, sizes: seq<nat>, r: Range, maximum: nat)
    requires r.first <= r.end < |sizes|
    requires SliceEstimate(o, sizes, r.first, r.end + 1).Ok?
            && SliceEstimate(o, sizes, r.first, r.end + 1).value > maximum
    ensures IsFull(o, sizes, r, maximum)
  {
    hide SliceEstimate;
  }

  /** The state and the estimated size if chunk `i` joined the run that started at `start`. */
  method Propose(o: Sides, sizes: seq<nat>, start: nat, i: nat, payload: nat,
                 state: GroupState) returns (r: Result<(GroupState, nat)>)
    requires start <= i < |sizes| && payload == Sum(sizes[start..i])
    requires o.kind.Ewf2? || StateFrom(sizes, start, i) == Ok(state)
    ensures r.Ok? <==> SliceEstimate(o, sizes, start, i + 1).Ok?
    ensures r.Ok? ==> r.value.1 == SliceEstimate(o, sizes, start, i + 1).value
    ensures r.Ok? ==> if o.kind.Ewf2? then r.value.0 == state else StateFrom(sizes, start, i + 1) == Ok(r.value.0)
  {
    hide EstimatedSize, GroupState.AddChunk;
    SumOfSliceStep(sizes, start, i);
    if payload + sizes[i] >= U64 { return Err; }
    var next := state;
    if !o.kind.Ewf2? {
      var added := state.AddChunk(sizes[i], MAX_ENTRIES, MAX_PAYLOAD);
      if added.Err? { return Err; }
      next := added.value;
    }
    var groups := if o.kind.Ewf2? || next.groupCount == 0 then 1 else next.groupCount;
    var size := EstimatedSize(o, i - start + 1, payload + sizes[i], groups);
    if size >= U64 { return Err; }
    return Ok((next, size));
  }

  /** The state of a run that starts with chunk `i`. */
  method First(o: Sides, sizes: seq<nat>, i: nat) returns (r: Result<GroupState>)
    requires i < |sizes|
    ensures r.Ok? ==> o.kind.Ewf2? || StateFrom(sizes, i, i + 1) == Ok(r.value)
    ensures r.Err? ==> SliceEstimate(o, sizes, i, i + 1).Err?
  {
    hide GroupState.AddChunk;
    assert StateFrom(sizes, i, i) == Ok(NO_GROUP);
    if o.kind.Ewf2? { return Ok(NO_GROUP); }
    r := NO_GROUP.AddChunk(sizes[i], MAX_ENTRIES, MAX_PAYLOAD);
  }

  // ---------------------------------------------------------------- estimates hold

  /** There are as many groups as the grouping of `sizes` counts. */
  predicate GroupsAreCounted(groups: seq<Group>, sizes: seq<nat>) {
    var state := StateAfter(sizes, |sizes|, MAX_ENTRIES, MAX_PAYLOAD);
    state.Ok? && state.value.groupCount == |groups|
  }

  /** The table groups that `ewf1_table_groups` makes for a slice are as many as were counted. */
  lemma CountedGroupsAreMade(sizes: seq<nat>, from: nat, n: nat, groups: seq<Group>)
    requires from < n <= |sizes| && StateFrom(sizes, from, n).Ok?
    requires groups != [] && GroupsAreCounted(groups, sizes[from..n])
    ensures GroupsFor(Ewf1Mirrored, sizes, from, n) == Ok(|groups|) == GroupsFor(Ewf1Smart, sizes, from, n)
  {
    StateOfSlice(sizes, from, n, n);
  }

  /** Some of the side sections, in order. */
  function Chosen(sizes: seq<nat>, keep: seq<bool>): seq<nat>
    requires |keep| == |sizes|
  {
    if sizes == [] then []
    else
      var n := |sizes| - 1;
      Chosen(sizes[..n], keep[..n]) + (if keep[n] then [sizes[n]] else [])
  }

  lemma {:induction false} ChosenIsNoLarger(sizes: seq<nat>, keep: seq<bool>, descriptor: nat)
    requires |keep| == |sizes|
    ensures SectionTotal(Chosen(sizes, keep), descriptor) <= SectionTotal(sizes, descriptor)
  {
    if sizes != [] {
      var n := |sizes| - 1;
      ChosenIsNoLarger(sizes[..n], keep[..n], descriptor);
      var before := Chosen(sizes[..n], keep[..n]);
      assert (before + [sizes[n]])[..|before + [sizes[n]]| - 1] == before;
      assert before + [] == before;
    }
  }

  function PlanSizes(plans: seq<Ewf1RoundTrip.Plan>): (sizes: seq<nat>)
    ensures |sizes| == |plans|
  {
    seq(|plans|, i requires 0 <= i < |plans| => plans[i].DataSize())
  }

  lemma {:induction false} OffsetIsTotal(plans: seq<Ewf1RoundTrip.Plan>, i: nat)
    requires i <= |plans|
    ensures Ewf1RoundTrip.PlanOffset(plans, i)
            == Ewf1Sections.FILE_HEADER_SIZE + SectionTotal(PlanSizes(plans)[..i], Ewf1Sections.DESCRIPTOR_SIZE)
  {
    if i > 0 {
      OffsetIsTotal(plans, i - 1);
      assert PlanSizes(plans)[..i][..i - 1] == PlanSizes(plans)[..i - 1];
    }
  }

  lemma {:induction false} TotalOfConcatenation(a: seq<nat>, b: seq<nat>, descriptor: nat)
    ensures SectionTotal(a + b, descriptor) == SectionTotal(a, descriptor) + SectionTotal(b, descriptor)
  {
    if b == [] {
      assert a + b == a;
    } else {
      assert (a + b)[..|a + b| - 1] == a + b[..|b| - 1];
      TotalOfConcatenation(a, b[..|b| - 1], descriptor);
    }
  }

  function GroupsTotal(groups: seq<seq<Ewf1Tables.Chunk>>, footer: bool, mirror: bool): nat {
    if groups == [] then 0
    else Ewf1RoundTrip.GroupSize(groups[0], footer, mirror) + GroupsTotal(groups[1..], footer, mirror)
  }

  lemma {:induction false} BodyTotal(groups: seq<seq<Ewf1Tables.Chunk>>, post: seq<Ewf1RoundTrip.Plan>, start: nat,
                                     footer: bool, mirror: bool)
    ensures var d := Ewf1Sections.DESCRIPTOR_SIZE;
            SectionTotal(PlanSizes(Ewf1RoundTrip.BodyPlans(groups, post, start, footer, mirror)), d)
            == GroupsTotal(groups, footer, mirror) + SectionTotal(PlanSizes(post), d)
    decreases |groups|
  {
    var d := Ewf1Sections.DESCRIPTOR_SIZE;
    hide Ewf1RoundTrip.GroupPlans, Ewf1RoundTrip.GroupSize, Ewf1RoundTrip.Plan.DataSize;
    if groups != [] {
      var next := start + Ewf1RoundTrip.GroupSize(groups[0], footer, mirror);
      var group, rest := Ewf1RoundTrip.GroupPlans(groups[0], start, footer, mirror),
          Ewf1RoundTrip.BodyPlans(groups[1..], post, next, footer, mirror);
      BodyTotal(groups[1..], post, next, footer, mirror);
      assert PlanSizes(group + rest) == PlanSizes(group) + PlanSizes(rest);
      TotalOfConcatenation(PlanSizes(group), PlanSizes(rest), d);
      GroupTotal(groups[0], start, footer, mirror);
    }
  }

  lemma GroupTotal(chunks: seq<Ewf1Tables.Chunk>, start: nat, footer: bool, mirror: bool)
    ensures SectionTotal(PlanSizes(Ewf1RoundTrip.GroupPlans(chunks, start, footer, mirror)),
                         Ewf1Sections.DESCRIPTOR_SIZE)
            == Ewf1RoundTrip.GroupSize(chunks, footer, mirror)
  {
    var d := Ewf1Sections.DESCRIPTOR_SIZE;
    var payload, table := Ewf1Tables.TotalSize(chunks), Ewf1Tables.TABLE_HEADER_SIZE + 4 * |chunks|;
    var two := [payload, table + (if footer then 4 else 0)];
    hide Ewf1Tables.TotalSize;
    assert PlanSizes(Ewf1RoundTrip.GroupPlans(chunks, start, footer, mirror)) == if mirror then two + [table + 4]
        else two;
    TotalOfTwo(two[0], two[1], d);
    TotalOfConcatenation(two, [table + 4], d);
    TotalOfTwo(0, table + 4, d);
    TotalOfConcatenation([0], [table + 4], d);
  }

  lemma TotalOfTwo(a: nat, b: nat, descriptor: nat)
    ensures SectionTotal([a, b], descriptor) == 2 * descriptor + a + b
    ensures SectionTotal([b], descriptor) == descriptor + b
  {
    assert [a][..0] == [] && [b][..0] == [];
    assert SectionTotal([], descriptor) == 0;
    assert SectionTotal([a], descriptor) == descriptor + a;
    assert [a, b][..|[a, b]| - 1] == [a];
  }

  /** An EWF1 segment file is as large as its sections. */
  lemma Ewf1FileSize(file: Bytes, l: Ewf1Image.Layout)
    requires Ewf1Image.IsSegmentFile(file, l)
    ensures var d := Ewf1Sections.DESCRIPTOR_SIZE;
            |file| == Ewf1Sections.FILE_HEADER_SIZE + SectionTotal(PlanSizes(l.pre), d)
                      + GroupsTotal(l.groups, l.footer, l.mirror) + SectionTotal(PlanSizes(l.post), d)
  {
    hide *;
    var plans, start := l.Plans(), Ewf1RoundTrip.PlanOffset(l.pre, |l.pre|);
    FileIsItsChain(file, l);
    OffsetIsTotal(plans, |plans|);
    assert PlanSizes(plans)[..|plans|] == PlanSizes(plans);
    LayoutSizes(l, start);
    TotalOfConcatenation(PlanSizes(l.pre),
                         PlanSizes(Ewf1RoundTrip.BodyPlans(l.groups, l.post, start, l.footer, l.mirror)),
                         Ewf1Sections.DESCRIPTOR_SIZE);
    BodyTotal(l.groups, l.post, start, l.footer, l.mirror);
  }

  lemma FileIsItsChain(file: Bytes, l: Ewf1Image.Layout)
    requires Ewf1Image.IsSegmentFile(file, l)
    ensures |file| == Ewf1RoundTrip.PlanOffset(l.Plans(), |l.Plans()|)
  {
    hide Ewf1Sections.ChainBytes, Ewf1RoundTrip.PlanOffset, Ewf1Sections.ItemOffset, Ewf1Image.IsLayout,
        Ewf1Image.Layout.Plans;
    ChainSize(Ewf1RoundTrip.Rendered(l.Plans()), Ewf1Sections.FILE_HEADER_SIZE);
    Ewf1RoundTrip.PlannedOffsetsAreReal(l.Plans(), |l.Plans()|);
  }

  lemma LayoutSizes(l: Ewf1Image.Layout, start: nat)
    requires start == Ewf1RoundTrip.PlanOffset(l.pre, |l.pre|)
    ensures PlanSizes(l.Plans())
            == PlanSizes(l.pre) + PlanSizes(Ewf1RoundTrip.BodyPlans(l.groups, l.post, start, l.footer, l.mirror))
  {
    hide Ewf1RoundTrip.BodyPlans, Ewf1RoundTrip.PlanOffset, Ewf1RoundTrip.Plan.DataSize;
  }

  lemma {:induction false} ChainSize(items: seq<Ewf1Sections.Item>, start: nat)
    requires Ewf1Sections.Printable(items)
    ensures |Ewf1Sections.ChainBytes(items, start)| == Ewf1Sections.ItemOffset(items, start, |items|) - start
    decreases |items|
  {
    hide Ewf1Sections.DescriptorBytes;
    if items != [] {
      ChainSize(items[1..], start + Ewf1Sections.ItemSize(items[0]));
      Ewf1Sections.ItemOffsetOfTail(items, start, |items|);
    }
  }

  /** The tables of a slice take what the estimate says. */
  lemma {:induction false} GroupsTakeTheEstimate(groups: seq<seq<Ewf1Tables.Chunk>>, smart: bool)
    ensures var kind := if smart then Ewf1Smart else Ewf1Mirrored;
            GroupsTotal(groups, !smart, !smart)
            == ChunkSections(kind, Ewf1Image.ChunksBefore(groups, |groups|), PayloadOf(groups), |groups|)
    decreases |groups|
  {
    hide Ewf1Tables.TotalSize;
    if groups != [] {
      GroupsTakeTheEstimate(groups[1..], smart);
      Ewf1Image.ChunksBeforeOfTail(groups, |groups|);
    }
  }

  function PayloadOf(groups: seq<seq<Ewf1Tables.Chunk>>): nat {
    if groups == [] then 0 else Ewf1Tables.TotalSize(groups[0]) + PayloadOf(groups[1..])
  }

  /** The groups' payloads add up to the slice's. */
  lemma {:induction false} PayloadOfSlices(chunks: seq<Ewf1Tables.Chunk>, groups: seq<Group>, g: nat)
    requires IsGrouping(groups, Ewf1Image.Sizes(chunks), |chunks|, MAX_ENTRIES, MAX_PAYLOAD) && g <= |groups|
    requires EndBefore(groups, g) <= |chunks|
    ensures PayloadOf(Ewf1Image.Slices(chunks, groups)[g..]) + Sum(Ewf1Image.Sizes(chunks)[..EndBefore(groups, g)])
            == Sum(Ewf1Image.Sizes(chunks))
    decreases |groups| - g
  {
    var sizes, slices := Ewf1Image.Sizes(chunks), Ewf1Image.Slices(chunks, groups);
    if g == |groups| {
      assert sizes[..|chunks|] == sizes;
      assert slices[g..] == [];
    } else {
      GroupIsStep(chunks, groups, g);
      PayloadOfSlices(chunks, groups, g + 1);
      hide *;
      PayloadStep(slices, g);
      PayloadNext(chunks, groups, g);
    }
  }

  lemma PayloadStep(slices: seq<seq<Ewf1Tables.Chunk>>, g: nat)
    requires g < |slices|
    ensures PayloadOf(slices[g..]) == Ewf1Tables.TotalSize(slices[g]) + PayloadOf(slices[g + 1..])
  {
    assert slices[g..][1..] == slices[g + 1..];
  }

  lemma PayloadNext(chunks: seq<Ewf1Tables.Chunk>, groups: seq<Group>, g: nat)
    requires g < |groups| && groups[g].first == EndBefore(groups, g) < groups[g].end <= |chunks|
    requires Ewf1Image.Slices(chunks, groups)[g] == chunks[groups[g].first..groups[g].end]
            && EndBefore(groups, g + 1) == groups[g].end
    ensures Sum(Ewf1Image.Sizes(chunks)[..EndBefore(groups, g + 1)])
            == Sum(Ewf1Image.Sizes(chunks)[..EndBefore(groups, g)])
                + Ewf1Tables.TotalSize(Ewf1Image.Slices(chunks, groups)[g])
  {
    hide Ewf1Tables.RelativeOffset, Ewf1Image.Sizes, Ewf1Image.Slices, EndBefore;
    var sizes, first, end := Ewf1Image.Sizes(chunks), groups[g].first, groups[g].end;
    Ewf1Image.SliceSize(chunks, first, end, end - first);
    assert sizes[..end] == sizes[..first] + sizes[first..end];
    SumOfConcatenation(sizes[..first], sizes[first..end]);
  }

  lemma GroupIsStep(chunks: seq<Ewf1Tables.Chunk>, groups: seq<Group>, g: nat)
    requires IsGrouping(groups, Ewf1Image.Sizes(chunks), |chunks|, MAX_ENTRIES, MAX_PAYLOAD) && g < |groups|
    ensures groups[g].first == EndBefore(groups, g) < groups[g].end == EndBefore(groups, g + 1) <= |chunks|
    ensures Ewf1Image.Slices(chunks, groups)[g] == chunks[groups[g].first..groups[g].end]
  {
    Ewf1Image.GroupIsSlice(chunks, groups, g);
  }

  // ---------------------------------------------------------------- every segment fits

  /** The segment's side sections are some of the image's, and a terminal section. */
  predicate UsesSides(o: Sides, before: seq<nat>, after: seq<nat>, keepBefore: seq<bool>, keepAfter: seq<bool>) {
    && |keepBefore| == |o.before| && |keepAfter| == |o.after|
    && before == Chosen(o.before, keepBefore) && after == Chosen(o.after, keepAfter) + [0]
  }

  lemma SidesAreCovered(o: Sides, before: seq<nat>, after: seq<nat>, keepBefore: seq<bool>, keepAfter: seq<bool>)
    requires UsesSides(o, before, after, keepBefore, keepAfter)
    ensures SectionTotal(before, o.Descriptor()) + SectionTotal(after, o.Descriptor())
            <= SectionTotal(o.before, o.Descriptor()) + SectionTotal(o.after, o.Descriptor()) + o.Descriptor()
  {
    var d := o.Descriptor();
    ChosenIsNoLarger(o.before, keepBefore, d);
    ChosenIsNoLarger(o.after, keepAfter, d);
    TotalOfConcatenation(Chosen(o.after, keepAfter), [0], d);
    TotalOfTwo(0, 0, d);
  }

  /** An EWF1 segment of the chunks `first..end`, whichever side sections it has and however
      its chunks are encoded, is no larger than the estimate that placed them there. */
  lemma Ewf1SegmentFits(file: Bytes, l: Ewf1Image.Layout, chunks: seq<Ewf1Tables.Chunk>, groups: seq<Group>, o: Sides,
                        sizes: seq<nat>,
                        r: Range, keepBefore: seq<bool>, keepAfter: seq<bool>)
    requires Ewf1Image.HoldsChunks(file, l, chunks, groups) && !o.kind.Ewf2?
    requires l.footer == l.mirror == o.kind.Ewf1Mirrored?
    requires UsesSides(o, PlanSizes(l.pre), PlanSizes(l.post), keepBefore, keepAfter)
    requires r.first < r.end <= |sizes| && Ewf1Image.Sizes(chunks) == sizes[r.first..r.end]
    requires GroupsAreCounted(groups, sizes[r.first..r.end])
    requires SliceEstimate(o, sizes, r.first, r.end).Ok?
    ensures |file| <= SliceEstimate(o, sizes, r.first, r.end).value
  {
    hide *;
    ChunkTablesSize(l, chunks, groups, file, o.kind.Ewf1Smart?);
    HeldChunksAreInFile(file, l, chunks, groups);
    Ewf1FileSize(file, l);
    SidesAreCovered(o, PlanSizes(l.pre), PlanSizes(l.post), keepBefore, keepAfter);
    EstimateIs(o, sizes, r, groups, chunks);
  }

  lemma HeldChunksAreInFile(file: Bytes, l: Ewf1Image.Layout, chunks: seq<Ewf1Tables.Chunk>, groups: seq<Group>)
    requires Ewf1Image.HoldsChunks(file, l, chunks, groups)
    ensures Ewf1Image.IsSegmentFile(file, l) && chunks != [] && |Ewf1Image.Sizes(chunks)| == |chunks|
  {}

  lemma ChunkTablesSize(l: Ewf1Image.Layout, chunks: seq<Ewf1Tables.Chunk>, groups: seq<Group>, file: Bytes,
                        smart: bool)
    requires Ewf1Image.HoldsChunks(file, l, chunks, groups) && l.footer == l.mirror == !smart
    ensures GroupsTotal(l.groups, l.footer, l.mirror)
            == ChunkSections(if smart then Ewf1Smart else Ewf1Mirrored, |chunks|, Sum(Ewf1Image.Sizes(chunks)),
                             |groups|)
  {
    hide GroupsTotal, ChunkSections, IsGrouping, Ewf1Image.IsSegmentFile, PayloadOf, Ewf1Image.Sizes;
    GroupsTakeTheEstimate(l.groups, smart);
    Ewf1Image.SlicesPartition(chunks, groups, |groups|);
    LastEndsTheSlice(chunks, groups);
    PayloadOfSlices(chunks, groups, 0);
    assert l.groups[0..] == l.groups;
    assert Ewf1Image.Sizes(chunks)[..0] == [];
  }

  lemma LastEndsTheSlice(chunks: seq<Ewf1Tables.Chunk>, groups: seq<Group>)
    requires IsGrouping(groups, Ewf1Image.Sizes(chunks), |chunks|, MAX_ENTRIES, MAX_PAYLOAD)
    ensures EndBefore(groups, |groups|) == |chunks|
  {}

  lemma EstimateIs(o: Sides, sizes: seq<nat>, r: Range, groups: seq<Group>, chunks: seq<Ewf1Tables.Chunk>)
    requires r.first < r.end <= |sizes| && !o.kind.Ewf2? && GroupsAreCounted(groups, sizes[r.first..r.end])
    requires SliceEstimate(o, sizes, r.first, r.end).Ok? && |chunks| == r.end - r.first
    ensures SliceEstimate(o, sizes, r.first, r.end).value
            == Ewf1Sections.FILE_HEADER_SIZE + SectionTotal(o.before, o.Descriptor())
               + ChunkSections(if o.kind.Ewf1Smart? then Ewf1Smart else Ewf1Mirrored, |chunks|,
                               Sum(sizes[r.first..r.end]), |groups|)
               + SectionTotal(o.after, o.Descriptor()) + o.Descriptor()
    ensures o.Descriptor() == Ewf1Sections.DESCRIPTOR_SIZE && o.Header() == Ewf1Sections.FILE_HEADER_SIZE
  {
    hide StateAfter, StateFrom, ChunkSections, SectionTotal;
    StateOfSlice(sizes, r.first, r.end, r.end);
    SomeGroup(sizes[r.first..r.end], r.end - r.first);
  }

  /** Adding a chunk makes at least one group. */
  lemma SomeGroup(sizes: seq<nat>, n: nat)
    requires 0 < n <= |sizes| && StateAfter(sizes, n, MAX_ENTRIES, MAX_PAYLOAD).Ok?
    ensures StateAfter(sizes, n, MAX_ENTRIES, MAX_PAYLOAD).value.groupCount > 0
  {}

  function ItemSizes(items: seq<Ewf2Sections.Item>): (sizes: seq<nat>)
    ensures |sizes| == |items|
  {
    seq(|items|, i requires 0 <= i < |items| => |items[i].payload|)
  }

  lemma {:induction false} DataOffsetIsTotal(items: seq<Ewf2Sections.Item>, i: nat)
    requires i <= |items|
    ensures Ewf2Sections.DataOffset(items, i)
            == Ewf2Sections.FILE_HEADER_SIZE + SectionTotal(ItemSizes(items)[..i], Ewf2Sections.DESCRIPTOR_SIZE)
  {
    if i > 0 {
      DataOffsetIsTotal(items, i - 1);
      assert ItemSizes(items)[..i][..i - 1] == ItemSizes(items)[..i - 1];
    }
  }

  function EncodedSizes(chunks: seq<ChunkCodec.EncodedChunk>): (sizes: seq<nat>)
    ensures |sizes| == |chunks|
  {
    seq(|chunks|, i requires 0 <= i < |chunks| => |chunks[i].bytes|)
  }

  lemma {:induction false} PayloadIsSum(chunks: seq<ChunkCodec.EncodedChunk>, n: nat)
    requires n <= |chunks|
    ensures Ewf2Tables.ChunkOffset(chunks, 0, n) == Sum(EncodedSizes(chunks)[..n])
  {
    if n > 0 {
      PayloadIsSum(chunks, n - 1);
      SumOfPrefix(EncodedSizes(chunks), n - 1);
    }
  }

  /** An EWF2 segment is no larger than its estimate either. */
  lemma Ewf2SegmentFits(s: Ewf2ReadBack.Segment, o: Sides, sizes: seq<nat>, r: Range, keepBefore: seq<bool>,
                        keepAfter: seq<bool>)
    requires Ewf2Sections.IsChainFile(s.file, s.Items()) && o.kind.Ewf2?
    requires UsesSides(o, ItemSizes(s.pre), ItemSizes(s.post), keepBefore, keepAfter)
    requires r.first < r.end <= |sizes| && EncodedSizes(s.chunks) == sizes[r.first..r.end]
    requires SliceEstimate(o, sizes, r.first, r.end).Ok?
    ensures |s.file| <= SliceEstimate(o, sizes, r.first, r.end).value
  {
    hide *;
    Ewf2Sections.ChainIsHeld(s.file, s.Items());
    DataOffsetIsTotal(s.Items(), |s.Items()|);
    ItemTotal(s);
    SidesAreCovered(o, ItemSizes(s.pre), ItemSizes(s.post), keepBefore, keepAfter);
    Ewf2EstimateIs(o, sizes, r);
  }

  lemma Ewf2EstimateIs(o: Sides, sizes: seq<nat>, r: Range)
    requires r.first < r.end <= |sizes| && o.kind.Ewf2? && SliceEstimate(o, sizes, r.first, r.end).Ok?
    ensures SliceEstimate(o, sizes, r.first, r.end).value
            == Ewf2Sections.FILE_HEADER_SIZE + SectionTotal(o.before, o.Descriptor())
               + ChunkSections(Ewf2, |sizes[r.first..r.end]|, Sum(sizes[r.first..r.end]), 1)
               + SectionTotal(o.after, o.Descriptor()) + o.Descriptor()
    ensures o.Descriptor() == Ewf2Sections.DESCRIPTOR_SIZE
  {
    hide ChunkSections, SectionTotal, StateFrom;
  }

  lemma ItemTotal(s: Ewf2ReadBack.Segment)
    ensures var d := Ewf2Sections.DESCRIPTOR_SIZE;
            SectionTotal(ItemSizes(s.Items())[..|s.Items()|], d)
            == SectionTotal(ItemSizes(s.pre), d)
                + ChunkSections(Ewf2, |EncodedSizes(s.chunks)|, Sum(EncodedSizes(s.chunks)), 1)
                + SectionTotal(ItemSizes(s.post), d)
  {
    var d := Ewf2Sections.DESCRIPTOR_SIZE;
    var middle := [|s.Sectors().payload|, |s.Table().payload|];
    PayloadIsSum(s.chunks, |s.chunks|);
    assert EncodedSizes(s.chunks)[..|s.chunks|] == EncodedSizes(s.chunks);
    hide SectionTotal, Ewf2Tables.TableData, Ewf2Tables.PayloadTo, Sum, EncodedSizes;
    assert ItemSizes(s.Items())[..|s.Items()|] == (ItemSizes(s.pre) + middle) + ItemSizes(s.post);
    TotalOfConcatenation(ItemSizes(s.pre) + middle, ItemSizes(s.post), d);
    TotalOfConcatenation(ItemSizes(s.pre), middle, d);
    TotalOfTwo(middle[0], middle[1], d);
  }

  /** So a split image has no EWF1 segment of two or more chunks above the configured maximum. */
  lemma SplitSegmentsFit(ranges: seq<Range>, k: nat, maximum: nat, o: Sides, sizes: seq<nat>,
                         file: Bytes, l: Ewf1Image.Layout, chunks: seq<Ewf1Tables.Chunk>, groups: seq<Group>,
                             keepBefore: seq<bool>, keepAfter: seq<bool>)
    requires IsSplit(ranges, o, sizes, |sizes|, maximum) && k < |ranges| && ranges[k].end - ranges[k].first >= 2
    requires Ewf1Image.HoldsChunks(file, l, chunks, groups) && !o.kind.Ewf2?
            && l.footer == l.mirror == o.kind.Ewf1Mirrored?
    requires UsesSides(o, PlanSizes(l.pre), PlanSizes(l.post), keepBefore, keepAfter)
    requires 0 <= ranges[k].first <= ranges[k].end <= |sizes|
            && Ewf1Image.Sizes(chunks) == sizes[ranges[k].first..ranges[k].end]
    requires GroupsAreCounted(groups, sizes[ranges[k].first..ranges[k].end])
    ensures |file| <= maximum
  {
    hide SliceEstimate, Ewf1Image.HoldsChunks, UsesSides, PlanSizes, GroupsAreCounted, Ewf1Image.Sizes;
    assert FitsRange(ranges, k, o, sizes, maximum);
    Ewf1SegmentFits(file, l, chunks, groups, o, sizes, ranges[k], keepBefore, keepAfter);
  }

  lemma SplitEwf2SegmentsFit(ranges: seq<Range>, k: nat, maximum: nat, o: Sides, sizes: seq<nat>,
                             s: Ewf2ReadBack.Segment,
                             keepBefore: seq<bool>, keepAfter: seq<bool>)
    requires IsSplit(ranges, o, sizes, |sizes|, maximum) && k < |ranges| && ranges[k].end - ranges[k].first >= 2
    requires Ewf2Sections.IsChainFile(s.file, s.Items()) && o.kind.Ewf2?
    requires UsesSides(o, ItemSizes(s.pre), ItemSizes(s.post), keepBefore, keepAfter)
    requires 0 <= ranges[k].first <= ranges[k].end <= |sizes|
            && EncodedSizes(s.chunks) == sizes[ranges[k].first..ranges[k].end]
    ensures |s.file| <= maximum
  {
    hide SliceEstimate, Ewf2Sections.IsChainFile, UsesSides, ItemSizes, EncodedSizes;
    assert FitsRange(ranges, k, o, sizes, maximum);
    Ewf2SegmentFits(s, o, sizes, ranges[k], keepBefore, keepAfter);
  }
}
