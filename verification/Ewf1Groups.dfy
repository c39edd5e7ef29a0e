/** Grouping chunks under tables of 31-bit offsets (src/writer.rs, `Ewf1TableGroupState` and
    `ewf1_table_groups`). */
module Ewf1Groups {
  import opened Basics

  const MAX_PAYLOAD: nat := 0x7fff_ffff
  const MAX_ENTRIES: nat := 16375

  datatype GroupState = GroupState(groupCount: nat, entryCount: nat, payloadSize: nat)
  {
    /** A chunk opens a new group when the current one is full or would grow past the cap. */
    predicate Opens(size: nat, maxEntries: nat, maxPayload: nat) {
      entryCount != 0 && (entryCount >= maxEntries || payloadSize + size > maxPayload)
    }

    function AddChunk(size: nat, maxEntries: nat, maxPayload: nat): Result<GroupState> {
      if payloadSize + size >= U64 then Err
      else if Opens(size, maxEntries, maxPayload) then Ok(GroupState(groupCount + 1, 1, size))
      else Ok(GroupState(if groupCount == 0 then 1 else groupCount, entryCount + 1, payloadSize + size))
    }
  }

  const NO_GROUP := GroupState(0, 0, 0)

  /** The state after adding the first `n` chunks. */
  function StateAfter(sizes: seq<nat>, n: nat, maxEntries: nat, maxPayload: nat): Result<GroupState>
    requires n <= |sizes|
  {
    if n == 0 then Ok(NO_GROUP)
    else
      var before :- StateAfter(sizes, n - 1, maxEntries, maxPayload);
      before.AddChunk(sizes[n - 1], maxEntries, maxPayload)
  }

  /** Chunks that fit 64 bits together are always grouped, under no more tables than chunks. */
  lemma {:induction false} GroupingSucceeds(sizes: seq<nat>, n: nat, maxEntries: nat, maxPayload: nat)
    requires n <= |sizes| && Sum(sizes[..n]) < U64
    ensures var state := StateAfter(sizes, n, maxEntries, maxPayload);
            state.Ok? && state.value.payloadSize <= Sum(sizes[..n]) && state.value.groupCount <= n
  {
    if n > 0 {
      assert sizes[..n][..n - 1] == sizes[..n - 1];
      GroupingSucceeds(sizes, n - 1, maxEntries, maxPayload);
    }
  }

  datatype Group = Group(first: nat, end: nat, payloadSize: nat)

  /** Where group `g` has to start: at the end of the one before it. */
  function EndBefore(groups: seq<Group>, g: nat): nat
    requires g <= |groups|
  {
    if g == 0 then 0 else groups[g - 1].end
  }

  /** Group `g` follows the one before it, and holds one chunk or respects both caps. */
  predicate InGrouping(groups: seq<Group>, sizes: seq<nat>, g: nat, upTo: nat, maxEntries: nat, maxPayload: nat)
    requires g < |groups| && upTo <= |sizes|
  {
    && groups[g].first == EndBefore(groups, g)
    && groups[g].first < groups[g].end <= upTo
    && groups[g].payloadSize == Sum(sizes[groups[g].first..groups[g].end])
    && (groups[g].end - groups[g].first == 1
        || (groups[g].end - groups[g].first <= maxEntries && groups[g].payloadSize <= maxPayload))
  }

  /** The groups are consecutive, non-empty slices of the first `upTo` chunks. */
  ghost predicate IsGrouping(groups: seq<Group>, sizes: seq<nat>, upTo: nat, maxEntries: nat, maxPayload: nat)
    requires upTo <= |sizes|
  {
    && (forall g | 0 <= g < |groups| :: InGrouping(groups, sizes, g, upTo, maxEntries, maxPayload))
    && EndBefore(groups, |groups|) == upTo
  }

  lemma SumOfSliceStep(sizes: seq<nat>, first: nat, i: nat)
    requires first <= i < |sizes|
    ensures Sum(sizes[first..i + 1]) == Sum(sizes[first..i]) + sizes[i]
  {
    assert sizes[first..i + 1][..i - first] == sizes[first..i];
  }

  /** No group but the last could have taken the next chunk. */
  ghost predicate IsGreedy(groups: seq<Group>, sizes: seq<nat>, maxEntries: nat, maxPayload: nat) {
    forall g | 0 <= g < |groups| && groups[g].end < |sizes| :: CannotGrow(groups[g], sizes, maxEntries, maxPayload)
  }

  predicate CannotGrow(group: Group, sizes: seq<nat>, maxEntries: nat, maxPayload: nat)
    requires group.end < |sizes|
  {
    group.end >= group.first + maxEntries || group.payloadSize + sizes[group.end] > maxPayload
  }

  /** A group that starts where the last one ended extends the partition. */
  lemma GroupingGrows(groups: seq<Group>, sizes: seq<nat>, first: nat, end: nat, maxEntries: nat, maxPayload: nat)
    requires first < end <= |sizes| && IsGrouping(groups, sizes, first, maxEntries, maxPayload)
    requires end - first == 1 || (end - first <= maxEntries && Sum(sizes[first..end]) <= maxPayload)
    ensures IsGrouping(groups + [Group(first, end, Sum(sizes[first..end]))], sizes, end, maxEntries, maxPayload)
  {
    var grown := groups + [Group(first, end, Sum(sizes[first..end]))];
    forall g | 0 <= g < |grown| ensures InGrouping(grown, sizes, g, end, maxEntries, maxPayload) {
      if g < |groups| { assert InGrouping(groups, sizes, g, first, maxEntries, maxPayload); }
      assert EndBefore(grown, g) == EndBefore(groups, g);
    }
  }

  /** `ewf1_table_groups`: a partition of the chunks within both caps, as many groups as the
      incremental counter says, each as large as the caps allow. */
  method TableGroups(sizes: seq<nat>, maxEntries: nat, maxPayload: nat) returns (r: Result<seq<Group>>)
    ensures r.Ok? <==> StateAfter(sizes, |sizes|, maxEntries, maxPayload).Ok?
    ensures r.Ok? && sizes != [] ==>
              && IsGrouping(r.value, sizes, |sizes|, maxEntries, maxPayload)
              && |r.value| == StateAfter(sizes, |sizes|, maxEntries, maxPayload).value.groupCount
              && IsGreedy(r.value, sizes, maxEntries, maxPayload)
    ensures r.Ok? && sizes == [] ==> r.value == [Group(0, 0, 0)]
  {
    var groups: seq<Group> := [];
    var first := 0;
    var state := NO_GROUP;
    StatesBefore(sizes, |sizes|, maxEntries, maxPayload);
    for i := 0 to |sizes|
      invariant StateAfter(sizes, i, maxEntries, maxPayload) == Ok(state)
      invariant first <= i && state.entryCount == i - first && state.payloadSize == Sum(sizes[first..i])
      invariant i > 0 ==> first < i && state.groupCount == |groups| + 1
      invariant i == 0 ==> groups == [] && first == 0 && state == NO_GROUP
      invariant IsGrouping(groups, sizes, first, maxEntries, maxPayload)
      invariant IsGreedy(groups, sizes, maxEntries, maxPayload)
      invariant i - first <= 1 || (i - first <= maxEntries && state.payloadSize <= maxPayload)
      invariant StateAfter(sizes, |sizes|, maxEntries, maxPayload).Ok? ==>
                  forall j | 0 <= j <= |sizes| :: StateAfter(sizes, j, maxEntries, maxPayload).Ok?
    {
      var next := state.AddChunk(sizes[i], maxEntries, maxPayload);
      assert next == StateAfter(sizes, i + 1, maxEntries, maxPayload);
      if next.Err? { return Err; }
      SumOfSliceStep(sizes, first, i);
      if next.value.groupCount > state.groupCount && state.entryCount != 0 {
        GroupingGrows(groups, sizes, first, i, maxEntries, maxPayload);
        groups := groups + [Group(first, i, state.payloadSize)];
        first := i;
        assert sizes[i..i + 1] == [sizes[i]];
        assert Sum([sizes[i]]) == sizes[i] by { assert [sizes[i]][..0] == []; }
      }
      state := next.value;
    }
    if sizes != [] { GroupingGrows(groups, sizes, first, |sizes|, maxEntries, maxPayload); }
    groups := groups + [Group(first, |sizes|, state.payloadSize)];
    return Ok(groups);
  }

  lemma {:induction false} StatesBefore(sizes: seq<nat>, n: nat, maxEntries: nat, maxPayload: nat)
    requires n <= |sizes|
    ensures StateAfter(sizes, n, maxEntries, maxPayload).Ok? ==>
              forall j | 0 <= j <= n :: StateAfter(sizes, j, maxEntries, maxPayload).Ok?
  {
    if n > 0 { StatesBefore(sizes, n - 1, maxEntries, maxPayload); }
  }
}
