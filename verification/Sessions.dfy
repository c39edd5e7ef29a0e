/** The session and track table (src/writer.rs, `session_payload`; src/metadata.rs,
    `parse_session_data`). */
module Sessions {
  import opened Basics
  import Sorting

  datatype Range = Range(first: nat, count: nat)
  {
    function End(): nat { first + count }
  }

  datatype Entry = Entry(start: nat, audio: bool)
  {
    function Key(): nat { 2 * start + (if audio then 1 else 0) }
  }

  datatype Tables = Tables(sessions: seq<Range>, tracks: seq<Range>)

  // ---------------------------------------------------------------- what the writer accepts

  /** `validate_session_ranges`: none, or non-empty ranges covering the media from sector 0. */
  predicate CoversMedia(ranges: seq<Range>, media: nat) {
    ranges != [] ==>
      && (forall k | 0 <= k < |ranges| :: Follows(ranges, k))
      && EndBefore(ranges, |ranges|) == media
  }

  predicate Follows(ranges: seq<Range>, k: nat)
    requires k < |ranges|
  {
    ranges[k].count > 0 && ranges[k].first == EndBefore(ranges, k)
  }

  function EndBefore(ranges: seq<Range>, k: nat): nat
    requires k <= |ranges|
  {
    if k == 0 then 0 else ranges[k - 1].End()
  }

  function StartsOf(ranges: seq<Range>): (s: seq<nat>)
    ensures |s| == |ranges| && forall k | 0 <= k < |s| :: s[k] == ranges[k].first
  {
    seq(|ranges|, k requires 0 <= k < |ranges| => ranges[k].first)
  }

  /** The ranges between consecutive starts, the last one ending at `media`. */
  function Segments(starts: seq<nat>, k: nat, media: nat): seq<Range>
    requires k <= |starts|
    decreases |starts| - k
  {
    if k == |starts| then []
    else
      var end := if k + 1 < |starts| then starts[k + 1] else media;
      [Range(starts[k], if end >= starts[k] then end - starts[k] else 0)] + Segments(starts, k + 1, media)
  }

  predicate Ascends(starts: seq<nat>, media: nat) {
    && (forall i, j | 0 <= i < j < |starts| :: starts[i] < starts[j])
    && (forall i | 0 <= i < |starts| :: starts[i] < media)
    && (starts != [] ==> starts[0] == 0)
  }

  // ---------------------------------------------------------------- sorting the entries

  function KeyOf(e: Entry): nat { e.Key() }

  /** `sort_by_key` on start and audio flag. */
  function Sorted(entries: seq<Entry>): (s: seq<Entry>)
    ensures |s| == |entries| && multiset(s) == multiset(entries)
  {
    Sorting.SortedBy(KeyOf, entries)
  }

  predicate Ordered(s: seq<Entry>) {
    forall i, j | 0 <= i < j < |s| :: s[i].Key() <= s[j].Key()
  }

  /** Keys tell entries apart, so there is one ordered arrangement. */
  lemma OrderedIsSorted(entries: seq<Entry>, arranged: seq<Entry>)
    requires multiset(arranged) == multiset(entries) && Ordered(arranged)
    ensures Sorted(entries) == arranged
  {
    Sorting.SortedIsOrdered(KeyOf, entries);
    assert |multiset(arranged)| == |arranged| && |multiset(entries)| == |entries|;
    assert Sorting.OrderedBy(KeyOf, arranged) && Sorting.ToldApartBy(KeyOf, arranged);
    Sorting.OneArrangement(KeyOf, Sorted(entries), arranged);
  }

  /** Two ascending lists of starts in one order, a session before a track that starts with it. */
  function Merge(s: seq<nat>, i: nat, t: seq<nat>, j: nat): (e: seq<Entry>)
    requires i <= |s| && j <= |t|
    ensures |e| == |s| - i + |t| - j
    decreases |s| - i + |t| - j
  {
    if i == |s| && j == |t| then []
    else if j == |t| || (i < |s| && s[i] <= t[j]) then [Entry(s[i], false)] + Merge(s, i + 1, t, j)
    else [Entry(t[j], true)] + Merge(s, i, t, j + 1)
  }

  function EntriesFrom(starts: seq<nat>, k: nat, audio: bool): seq<Entry>
    requires k <= |starts|
    decreases |starts| - k
  {
    if k == |starts| then [] else [Entry(starts[k], audio)] + EntriesFrom(starts, k + 1, audio)
  }

  lemma {:induction false} MergeIsPermutation(s: seq<nat>, i: nat, t: seq<nat>, j: nat)
    requires i <= |s| && j <= |t|
    ensures multiset(Merge(s, i, t, j)) == multiset(EntriesFrom(s, i, false)) + multiset(EntriesFrom(t, j, true))
    decreases |s| - i + |t| - j
  {
    hide *;
    if i == |s| && j == |t| {
      MergeEnds(s, t);
    } else {
      MergeStep(s, i, t, j);
      if j == |t| || (i < |s| && s[i] <= t[j]) {
        MergeIsPermutation(s, i + 1, t, j);
        FromStep(s, i, false);
        MultisetOfCons(Entry(s[i], false), Merge(s, i + 1, t, j));
        MultisetOfCons(Entry(s[i], false), EntriesFrom(s, i + 1, false));
      } else {
        MergeIsPermutation(s, i, t, j + 1);
        FromStep(t, j, true);
        MultisetOfCons(Entry(t[j], true), Merge(s, i, t, j + 1));
        MultisetOfCons(Entry(t[j], true), EntriesFrom(t, j + 1, true));
      }
    }
  }

  lemma MergeEnds(s: seq<nat>, t: seq<nat>)
    ensures Merge(s, |s|, t, |t|) == [] && EntriesFrom(s, |s|, false) == [] && EntriesFrom(t, |t|, true) == []
  {}

  lemma MergeStep(s: seq<nat>, i: nat, t: seq<nat>, j: nat)
    requires i <= |s| && j <= |t| && (i < |s| || j < |t|)
    ensures if j == |t| || (i < |s| && s[i] <= t[j])
            then i < |s| && Merge(s, i, t, j) == [Entry(s[i], false)] + Merge(s, i + 1, t, j)
            else Merge(s, i, t, j) == [Entry(t[j], true)] + Merge(s, i, t, j + 1)
  {}

  lemma FromStep(starts: seq<nat>, k: nat, audio: bool)
    requires k < |starts|
    ensures EntriesFrom(starts, k, audio) == [Entry(starts[k], audio)] + EntriesFrom(starts, k + 1, audio)
  {}

  lemma MultisetOfCons(e: Entry, rest: seq<Entry>)
    ensures multiset([e] + rest) == multiset{e} + multiset(rest)
  {}

  lemma {:induction false} MergeIsOrdered(s: seq<nat>, i: nat, t: seq<nat>, j: nat, media: nat)
    requires Ascends(s, media) && Ascends(t, media) && i <= |s| && j <= |t|
    ensures Ordered(Merge(s, i, t, j))
    ensures forall e <- Merge(s, i, t, j) :: (i < |s| && e.Key() >= 2 * s[i]) || (j < |t| && e.Key() >= 2 * t[j] + 1)
    decreases |s| - i + |t| - j
  {
    hide Merge, Ordered, Entry.Key;
    if i == |s| && j == |t| {
      MergeEnds(s, t);
      NothingIsOrdered();
    } else {
      MergeStep(s, i, t, j);
      var audio := !(j == |t| || (i < |s| && s[i] <= t[j]));
      var first := if audio then Entry(t[j], true) else Entry(s[i], false);
      var rest := if audio then Merge(s, i, t, j + 1) else Merge(s, i + 1, t, j);
      if audio { MergeIsOrdered(s, i, t, j + 1, media); } else { MergeIsOrdered(s, i + 1, t, j, media); }
      KeyIs(s, i, false);
      KeyIs(t, j, true);
      FirstIsOrdered(first, rest);
    }
  }

  lemma KeyIs(starts: seq<nat>, k: nat, audio: bool)
    ensures k < |starts| ==> Entry(starts[k], audio).Key() == 2 * starts[k] + if audio then 1 else 0
  {}

  lemma NothingIsOrdered()
    ensures Ordered([])
  {}

  lemma FirstIsOrdered(first: Entry, rest: seq<Entry>)
    requires Ordered(rest) && forall e <- rest :: first.Key() <= e.Key()
    ensures Ordered([first] + rest)
  {
    hide Entry.Key;
    var all := [first] + rest;
    forall k | 0 < k < |all| ensures first.Key() <= all[k].Key() {
      assert all[k] in rest;
    }
  }

  /** What the writer prints: both lists, sorted. */
  function EntriesOf(sessions: seq<Range>, tracks: seq<Range>): seq<Entry> {
    Sorted(EntriesFrom(StartsOf(sessions), 0, false) + EntriesFrom(StartsOf(tracks), 0, true))
  }

  lemma EntriesAreMerged(sessions: seq<Range>, tracks: seq<Range>, media: nat)
    requires Ascends(StartsOf(sessions), media) && Ascends(StartsOf(tracks), media)
    ensures EntriesOf(sessions, tracks) == Merge(StartsOf(sessions), 0, StartsOf(tracks), 0)
  {
    hide Merge, EntriesFrom, Ordered, Ascends;
    var s, t := StartsOf(sessions), StartsOf(tracks);
    MergeIsPermutation(s, 0, t, 0);
    MergeIsOrdered(s, 0, t, 0, media);
    OrderedIsSorted(EntriesFrom(s, 0, false) + EntriesFrom(t, 0, true), Merge(s, 0, t, 0));
  }

  // ---------------------------------------------------------------- the reader's loop

  /** The tables that the entries from `k` on complete. */
  function ParseFrom(entries: seq<Entry>, k: nat, session: nat, track: nat, previous: Entry, current: bool,
                     media: nat): Result<Tables>
    requires k <= |entries|
    decreases |entries| - k
  {
    if k == |entries| then
      Ok(Tables(Closed(true, session, media), Closed(current, track, media)))
    else
      var e := entries[k];
      if e.start < previous.start then Err
      else
        var rest :- ParseFrom(entries, k + 1, if e.audio then session else e.start,
                              if previous.audio then e.start else track, e, e.audio, media);
        Ok(Tables(Closed(!e.audio, session, e.start) + rest.sessions,
                  Closed(previous.audio, track, e.start) + rest.tracks))
  }

  /** What an entry completes: nothing, or the range open since `start`. */
  function Closed(closes: bool, start: nat, end: nat): seq<Range> {
    if closes then [Range(start, SaturatingSub(end, start))] else []
  }

  lemma Appended(a: seq<Range>, b: seq<Range>, c: seq<Range>)
    ensures a + (b + c) == (a + b) + c
  {}

  /** `parse_session_data`'s loop over the entries. */
  method ParseEntries(entries: seq<Entry>, media: nat) returns (r: Result<Tables>)
    requires entries != []
    ensures r == Parse(entries, media)
  {
    var sessions, tracks := [], [];
    var session: nat, track: nat, previous, current := 0, 0, entries[0], false;
    ghost var all := Parse(entries, media);
    assert all.Ok? ==> [] + all.value.sessions == all.value.sessions && [] + all.value.tracks == all.value.tracks;
    for k := 1 to |entries|
      invariant var rest := ParseFrom(entries, k, session, track, previous, current, media);
                all == if rest.Ok? then Ok(Tables(sessions + rest.value.sessions, tracks + rest.value.tracks)) else Err
    {
      var e := entries[k];
      if e.start < previous.start { return Err; }
      ghost var rest := ParseFrom(entries, k + 1, if e.audio then session else e.start,
                                  if previous.audio then e.start else track, e, e.audio, media);
      if rest.Ok? {
        Appended(sessions, Closed(!e.audio, session, e.start), rest.value.sessions);
        Appended(tracks, Closed(previous.audio, track, e.start), rest.value.tracks);
      }
      sessions := sessions + Closed(!e.audio, session, e.start);
      tracks := tracks + Closed(previous.audio, track, e.start);
      if !e.audio { session := e.start; }
      if previous.audio { track := e.start; }
      previous, current := e, e.audio;
    }
    sessions := sessions + Closed(true, session, media);
    tracks := tracks + Closed(current, track, media);
    return Ok(Tables(sessions, tracks));
  }

  /** The reader starts from the first entry, with both kinds of range at sector 0. */
  function Parse(entries: seq<Entry>, media: nat): Result<Tables>
    requires entries != []
  {
    ParseFrom(entries, 1, 0, 0, entries[0], false, media)
  }

  // ---------------------------------------------------------------- when the tables come back

  /** Every session from `i` on starts where some track does. */
  predicate StartsWithTracks(s: seq<nat>, i: nat, t: seq<nat>)
    requires i <= |s|
  {
    forall k | i <= k < |s| :: s[k] in t
  }

  lemma MergeHead(s: seq<nat>, i: nat, t: seq<nat>, j: nat)
    requires i <= |s| && j <= |t| && (i < |s| || j < |t|)
    ensures Merge(s, i, t, j) != []
    ensures if j == |t| || (i < |s| && s[i] <= t[j])
            then Merge(s, i, t, j)[0] == Entry(s[i], false) && Merge(s, i, t, j)[1..] == Merge(s, i + 1, t, j)
            else Merge(s, i, t, j)[0] == Entry(t[j], true) && Merge(s, i, t, j)[1..] == Merge(s, i, t, j + 1)
  {}

  /** Parsing only looks ahead. */
  lemma {:induction false} ParseSuffix(entries: seq<Entry>, k: nat, session: nat, track: nat, previous: Entry,
                                       current: bool, media: nat)
    requires k <= |entries|
    ensures ParseFrom(entries, k, session, track, previous, current, media)
            == ParseFrom(entries[k..], 0, session, track, previous, current, media)
    decreases |entries| - k
  {
    if k < |entries| {
      var e := entries[k];
      var s, t := if e.audio then session else e.start, if previous.audio then e.start else track;
      ParseSuffix(entries, k + 1, s, t, e, e.audio, media);
      ParseSuffix(entries[k..], 1, s, t, e, e.audio, media);
      assert entries[k..][1..] == entries[k + 1..];
    }
  }

  /** What the rest of a merged table parses to, from the point where sessions up to `i` and
      tracks up to `j` have been read. */
  function RestOf(s: seq<nat>, i: nat, t: seq<nat>, j: nat, session: nat, track: nat, previous: Entry, current: bool,
                  media: nat): Result<Tables>
    requires i <= |s| && j <= |t|
  {
    ParseFrom(Merge(s, i, t, j), 0, session, track, previous, current, media)
  }

  lemma RestStep(s: seq<nat>, i: nat, t: seq<nat>, j: nat, session: nat, track: nat, previous: Entry, current: bool,
                 media: nat)
    requires i <= |s| && j <= |t| && (i < |s| || j < |t|)
    ensures var e := Merge(s, i, t, j)[0];
            RestOf(s, i, t, j, session, track, previous, current, media)
            == if e.start < previous.start then Err
               else
                 var rest := if e.audio then
                     RestOf(s, i, t, j + 1, session, if previous.audio then e.start else track, e, true, media)
                             else RestOf(s, i + 1, t, j, e.start, if previous.audio then e.start else track, e, false,
                                         media);
                 if rest.Err? then Err
                 else Ok(Tables(Closed(!e.audio, session, e.start) + rest.value.sessions,
                                Closed(previous.audio, track, e.start) + rest.value.tracks))
  {
    MergeHead(s, i, t, j);
    var all, e := Merge(s, i, t, j), Merge(s, i, t, j)[0];
    hide Merge;
    ParseSuffix(all, 1, if e.audio then session else e.start, if previous.audio then e.start else track, e, e.audio,
                media);
  }

  lemma SegmentsStep(starts: seq<nat>, k: nat, media: nat)
    requires k < |starts|
    ensures Segments(starts, k, media)
            == Closed(true, starts[k], if k + 1 < |starts| then starts[k + 1] else media)
                + Segments(starts, k + 1, media)
  {}

  /** The last entry read is track `j - 1`; the sessions up to `i` have been read. */
  ghost predicate AfterTrack(s: seq<nat>, i: nat, t: seq<nat>, j: nat, media: nat) {
    && Ascends(s, media) && Ascends(t, media) && 0 < i <= |s| && 0 < j <= |t|
    && (i < |s| ==> s[i] > t[j - 1])
  }

  /** The state in which reading goes on after track `j - 1`. */
  function FromTrack(s: seq<nat>, i: nat, t: seq<nat>, j: nat, media: nat): Result<Tables>
    requires 0 < i <= |s| && 0 < j <= |t|
  {
    RestOf(s, i, t, j, s[i - 1], t[j - 1], Entry(t[j - 1], true), true, media)
  }

  /** The last entry read is session `i - 1`, and the track that starts with it is next. */
  ghost predicate BeforeTrack(s: seq<nat>, i: nat, t: seq<nat>, j: nat, media: nat) {
    && Ascends(s, media) && Ascends(t, media) && 0 < i <= |s| && j < |t| && t[j] == s[i - 1]
  }

  function FromSession(s: seq<nat>, i: nat, t: seq<nat>, j: nat, media: nat): Result<Tables>
    requires 0 < i <= |s| && j <= |t|
  {
    RestOf(s, i, t, j, s[i - 1], s[i - 1], Entry(s[i - 1], false), false, media)
  }

  function Expected(s: seq<nat>, i: nat, t: seq<nat>, j: nat, media: nat): Result<Tables>
    requires i <= |s| && j <= |t|
  {
    Ok(Tables(Segments(s, i, media), Segments(t, j, media)))
  }

  /** Prepending the same completed ranges keeps whether the rest is as expected. */
  function Prepended(a: seq<Range>, b: seq<Range>, rest: Result<Tables>): Result<Tables> {
    if rest.Err? then Err else Ok(Tables(a + rest.value.sessions, b + rest.value.tracks))
  }

  lemma SameHeads(a: seq<Range>, b: seq<Range>, rest: Result<Tables>, sessions: seq<Range>, tracks: seq<Range>)
    ensures Prepended(a, b, rest) == Ok(Tables(a + sessions, b + tracks)) <==> rest == Ok(Tables(sessions, tracks))
  {
    if rest.Ok? {
      Cancels(a, rest.value.sessions, sessions);
      Cancels(b, rest.value.tracks, tracks);
    }
  }

  lemma Cancels(a: seq<Range>, x: seq<Range>, y: seq<Range>)
    ensures a + x == a + y <==> x == y
  {
    if a + x == a + y {
      assert (a + x)[|a|..] == x && (a + y)[|a|..] == y;
    }
  }

  /** A session that starts within a track cuts it short. */
  lemma LateSession(rest: Result<Tables>, a: seq<Range>, track: nat, start: nat, end: nat, sessions: seq<Range>,
                    tracks: seq<Range>)
    requires track < start < end
    ensures Prepended(a, Closed(true, track, start), rest) != Ok(Tables(sessions, Closed(true, track, end) + tracks))
  {
    if rest.Ok? {
      assert (Closed(true, track, start) + rest.value.tracks)[0].count == start - track;
      assert (Closed(true, track, end) + tracks)[0].count == end - track;
    }
  }

  lemma NoTrackBetween(s: seq<nat>, i: nat, t: seq<nat>, j: nat, media: nat)
    requires AfterTrack(s, i, t, j, media) && i < |s| && (j == |t| || s[i] < t[j])
    ensures !StartsWithTracks(s, i, t)
  {
    forall k | 0 <= k < |t| ensures t[k] != s[i] {
      if k < j - 1 { assert t[k] < t[j - 1]; }
      if k > j { assert t[j] < t[k]; }
    }
  }

  lemma StartsTail(s: seq<nat>, i: nat, t: seq<nat>, j: nat)
    requires i < |s| && j < |t| && s[i] == t[j]
    ensures StartsWithTracks(s, i, t) <==> StartsWithTracks(s, i + 1, t)
  {}

  lemma EndIsRight(s: seq<nat>, t: seq<nat>, media: nat)
    requires AfterTrack(s, |s|, t, |t|, media)
    ensures FromTrack(s, |s|, t, |t|, media) == Expected(s, |s| - 1, t, |t| - 1, media)
    ensures StartsWithTracks(s, |s|, t)
  {
    MergeEnds(s, t);
    SegmentsStep(s, |s| - 1, media);
    SegmentsStep(t, |t| - 1, media);
    assert Segments(s, |s|, media) == [] && Segments(t, |t|, media) == [];
    assert Segments(s, |s| - 1, media) == Closed(true, s[|s| - 1], media)
        && Segments(t, |t| - 1, media) == Closed(true, t[|t| - 1], media);
  }

  /** From a track on, the tables come back exactly when every later session starts with one. */
  lemma {:induction false} FromTrackIsRight(s: seq<nat>, i: nat, t: seq<nat>, j: nat, media: nat)
    requires AfterTrack(s, i, t, j, media)
    ensures FromTrack(s, i, t, j, media) == Expected(s, i - 1, t, j - 1, media) <==> StartsWithTracks(s, i, t)
    decreases |s| - i + |t| - j, 0
  {
    if i == |s| && j == |t| {
      EndIsRight(s, t, media);
    } else if j == |t| || (i < |s| && s[i] < t[j]) {
      SessionIsRead(s, i, t, j, media);
      NoTrackBetween(s, i, t, j, media);
      hide *;
      SegmentsStep(t, j - 1, media);
      LateSession(RestOf(s, i + 1, t, j, s[i], s[i], Entry(s[i], false), false, media), Closed(true, s[i - 1], s[i]),
                  t[j - 1], s[i],
                  if j < |t| then t[j] else media, Segments(s, i - 1, media), Segments(t, j, media));
      ExpectedIs(s, i - 1, t, j - 1, media);
    } else if i < |s| && s[i] == t[j] {
      SessionIsRead(s, i, t, j, media);
      FromSessionIsRight(s, i + 1, t, j, media);
      StartsTail(s, i, t, j);
      SegmentsStep(s, i - 1, media);
      SegmentsStep(t, j - 1, media);
      hide RestOf, Segments, StartsWithTracks, Closed;
      SameHeads(Closed(true, s[i - 1], s[i]), Closed(true, t[j - 1], t[j]), FromSession(s, i + 1, t, j, media),
                Segments(s, i, media), Segments(t, j, media));
    } else {
      TrackIsRead(s, i, t, j, media);
      FromTrackIsRight(s, i, t, j + 1, media);
      SegmentsStep(t, j - 1, media);
      hide RestOf, Segments, StartsWithTracks, Closed;
      SameHeads([], Closed(true, t[j - 1], t[j]), FromTrack(s, i, t, j + 1, media), Segments(s, i - 1, media),
                Segments(t, j, media));
      assert [] + Segments(s, i - 1, media) == Segments(s, i - 1, media);
    }
  }

  lemma ExpectedIs(s: seq<nat>, i: nat, t: seq<nat>, j: nat, media: nat)
    requires i <= |s| && j <= |t|
    ensures Expected(s, i, t, j, media) == Ok(Tables(Segments(s, i, media), Segments(t, j, media)))
  {}

  /** Reading session `i` after a track completes both open ranges. */
  lemma SessionIsRead(s: seq<nat>, i: nat, t: seq<nat>, j: nat, media: nat)
    requires AfterTrack(s, i, t, j, media) && i < |s| && (j == |t| || s[i] <= t[j])
    ensures FromTrack(s, i, t, j, media)
            == Prepended(Closed(true, s[i - 1], s[i]), Closed(true, t[j - 1], s[i]),
                         RestOf(s, i + 1, t, j, s[i], s[i], Entry(s[i], false), false, media))
    ensures t[j - 1] < s[i] < media && (j < |t| ==> t[j] < media)
  {
    hide RestOf, Merge, Closed;
    RestStep(s, i, t, j, s[i - 1], t[j - 1], Entry(t[j - 1], true), true, media);
    MergeHead(s, i, t, j);
  }

  /** Reading track `j` after a track completes the track before it. */
  lemma TrackIsRead(s: seq<nat>, i: nat, t: seq<nat>, j: nat, media: nat)
    requires AfterTrack(s, i, t, j, media) && j < |t| && (i == |s| || s[i] > t[j])
    ensures FromTrack(s, i, t, j, media)
            == Prepended([], Closed(true, t[j - 1], t[j]), FromTrack(s, i, t, j + 1, media))
    ensures AfterTrack(s, i, t, j + 1, media)
  {
    hide RestOf, Merge;
    RestStep(s, i, t, j, s[i - 1], t[j - 1], Entry(t[j - 1], true), true, media);
    MergeHead(s, i, t, j);
  }

  lemma {:induction false} FromSessionIsRight(s: seq<nat>, i: nat, t: seq<nat>, j: nat, media: nat)
    requires BeforeTrack(s, i, t, j, media)
    ensures FromSession(s, i, t, j, media) == Expected(s, i - 1, t, j, media) <==> StartsWithTracks(s, i, t)
    decreases |s| - i + |t| - j, 1
  {
    hide RestOf, Merge, Segments, StartsWithTracks;
    RestStep(s, i, t, j, s[i - 1], s[i - 1], Entry(s[i - 1], false), false, media);
    MergeHead(s, i, t, j);
    FromTrackIsRight(s, i, t, j + 1, media);
    SameHeads([], [], FromTrack(s, i, t, j + 1, media), Segments(s, i - 1, media), Segments(t, j, media));
    assert [] + Segments(s, i - 1, media) == Segments(s, i - 1, media)
        && [] + Segments(t, j, media) == Segments(t, j, media);
  }

  /** Without tracks the sessions come back. */
  lemma {:induction false} SessionsAlone(s: seq<nat>, i: nat, track: nat, media: nat)
    requires Ascends(s, media) && 0 < i <= |s|
    ensures RestOf(s, i, [], 0, s[i - 1], track, Entry(s[i - 1], false), false, media)
            == Expected(s, i - 1, [], 0, media)
    decreases |s| - i
  {
    SegmentsStep(s, i - 1, media);
    assert Segments([], 0, media) == [];
    if i < |s| {
      SessionsAlone(s, i + 1, track, media);
      RestStep(s, i, [], 0, s[i - 1], track, Entry(s[i - 1], false), false, media);
      MergeHead(s, i, [], 0);
      hide RestOf, Merge, Segments;
      assert Closed(false, track, s[i]) + Segments([], 0, media) == [];
    } else {
      MergeEnds(s, []);
      assert Segments(s, |s|, media) == [];
      assert Segments(s, |s| - 1, media) == Closed(true, s[|s| - 1], media);
    }
  }

  /** Parsing always ends with a session. */
  lemma {:induction false} SomeSession(entries: seq<Entry>, k: nat, session: nat, track: nat, previous: Entry,
                                       current: bool, media: nat)
    requires k <= |entries|
    ensures var r := ParseFrom(entries, k, session, track, previous, current, media); r.Ok? ==> r.value.sessions != []
    decreases |entries| - k
  {
    if k < |entries| {
      var e := entries[k];
      SomeSession(entries, k + 1, if e.audio then session else e.start, if previous.audio then e.start else track, e,
                  e.audio, media);
    }
  }

  lemma ParseIsRest(s: seq<nat>, t: seq<nat>, media: nat)
    requires Ascends(s, media) && Ascends(t, media) && s != []
    ensures Merge(s, 0, t, 0) != []
    ensures Parse(Merge(s, 0, t, 0), media) == RestOf(s, 1, t, 0, 0, 0, Entry(0, false), false, media)
  {
    MergeHead(s, 0, t, 0);
    hide Merge;
    ParseSuffix(Merge(s, 0, t, 0), 1, 0, 0, Merge(s, 0, t, 0)[0], false, media);
  }

  /** Starts that come back exactly. */
  lemma StartsRoundTrip(s: seq<nat>, t: seq<nat>, media: nat)
    requires Ascends(s, media) && Ascends(t, media) && (s != [] || t != [])
    ensures Merge(s, 0, t, 0) != []
    ensures Parse(Merge(s, 0, t, 0), media) == Expected(s, 0, t, 0, media)
            <==> s != [] && (t == [] || StartsWithTracks(s, 0, t))
  {
    hide ParseFrom, Segments, RestOf, Merge;
    if s == [] {
      MergeHead(s, 0, t, 0);
      SomeSession(Merge(s, 0, t, 0), 1, 0, 0, Merge(s, 0, t, 0)[0], false, media);
      assert Segments(s, 0, media) == [] by { NoSegments(media); }
    } else {
      ParseIsRest(s, t, media);
      if t == [] {
        SessionsAlone(s, 1, 0, media);
      } else {
        FromSessionIsRight(s, 1, t, 0, media);
        FirstTrackStarts(s, t, media);
      }
    }
  }

  lemma NoSegments(media: nat)
    ensures Segments([], 0, media) == []
  {}

  lemma FirstTrackStarts(s: seq<nat>, t: seq<nat>, media: nat)
    requires Ascends(s, media) && Ascends(t, media) && s != [] && t != []
    ensures StartsWithTracks(s, 1, t) <==> StartsWithTracks(s, 0, t)
  {
    assert t[0] in t;
  }

  // ---------------------------------------------------------------- ranges and starts

  lemma CoveringAscends(ranges: seq<Range>, media: nat)
    requires CoversMedia(ranges, media)
    ensures Ascends(StartsOf(ranges), media)
  {
    forall j | 0 <= j < |ranges|
      ensures ranges[j].first < media && forall i | 0 <= i < j :: ranges[i].first < ranges[j].first
    {
      EndsWithin(ranges, j, media);
      FirstsGrow(ranges, j, media);
    }
    if ranges != [] { assert Follows(ranges, 0); }
  }

  lemma {:induction false} EndsWithin(ranges: seq<Range>, j: nat, media: nat)
    requires CoversMedia(ranges, media) && j < |ranges|
    ensures ranges[j].first < ranges[j].End() <= media
    decreases |ranges| - j
  {
    assert Follows(ranges, j);
    if j + 1 < |ranges| {
      EndsWithin(ranges, j + 1, media);
      assert Follows(ranges, j + 1);
    }
  }

  lemma {:induction false} FirstsGrow(ranges: seq<Range>, j: nat, media: nat)
    requires CoversMedia(ranges, media) && j < |ranges|
    ensures forall i | 0 <= i < j :: ranges[i].first < ranges[j].first
  {
    if j > 0 {
      FirstsGrow(ranges, j - 1, media);
      assert Follows(ranges, j) && Follows(ranges, j - 1);
    }
  }

  lemma {:induction false} SegmentsOfStarts(ranges: seq<Range>, k: nat, media: nat)
    requires CoversMedia(ranges, media) && k <= |ranges|
    ensures Segments(StartsOf(ranges), k, media) == ranges[k..]
    decreases |ranges| - k
  {
    if k < |ranges| {
      SegmentsOfStarts(ranges, k + 1, media);
      assert Follows(ranges, k);
      if k + 1 < |ranges| { assert Follows(ranges, k + 1); }
      SegmentsStep(StartsOf(ranges), k, media);
      hide Segments;
      assert [ranges[k]] + ranges[k + 1..] == ranges[k..];
    }
  }

  // ---------------------------------------------------------------- bytes

  datatype Version = Ewf1 | Ewf2
  {
    function HeaderSize(): nat { if Ewf1? then 36 else 32 }
    function ChecksumAt(): nat { if Ewf1? then 32 else 16 }
    function FooterSize(): nat { if Ewf1? then 4 else 16 }
  }

  const ENTRY_SIZE: nat := 32

  /** The header with its checksum after the first `ChecksumAt` bytes. */
  function HeaderBytes(v: Version, count: nat): (b: Bytes)
    ensures |b| == v.HeaderSize()
  {
    var body := Le(count, 4) + Zeros(v.ChecksumAt() - 4);
    body + Le(Adler32(body), 4) + Zeros(v.HeaderSize() - v.ChecksumAt() - 4)
  }

  function Flags(e: Entry): nat { if e.audio then 1 else 0 }

  function EntryBytes(v: Version, e: Entry): (b: Bytes)
    ensures |b| == ENTRY_SIZE
  {
    if v.Ewf1? then Le(Flags(e), 4) + Le(e.start, 4) + Zeros(24) else Le(e.start, 8) + Le(Flags(e), 4) + Zeros(20)
  }

  function EntriesBytes(v: Version, entries: seq<Entry>, n: nat): (b: Bytes)
    requires n <= |entries|
    ensures |b| == ENTRY_SIZE * n
  {
    if n == 0 then [] else EntriesBytes(v, entries, n - 1) + EntryBytes(v, entries[n - 1])
  }

  function TableBytes(v: Version, entries: seq<Entry>): Bytes {
    var body := EntriesBytes(v, entries, |entries|);
    HeaderBytes(v, |entries|) + body + (Le(Adler32(body), 4) + Zeros(v.FooterSize() - 4))
  }

  predicate StartsFit(v: Version, entries: seq<Entry>) {
    forall e <- entries :: e.start < (if v.Ewf1? then U32 else U64)
  }

  /** `session_payload`: nothing to write, an error when a number does not fit, or the table. */
  function PrintTable(v: Version, sessions: seq<Range>, tracks: seq<Range>): Result<Option<Bytes>> {
    if sessions == [] && tracks == [] then Ok(None)
    else
      var entries := EntriesOf(sessions, tracks);
      if |entries| >= U32 || !StartsFit(v, entries) then Err else Ok(Some(TableBytes(v, entries)))
  }

  function ParseEntry(v: Version, b: Bytes): Entry
    requires |b| == ENTRY_SIZE
  {
    if v.Ewf1? then Entry(FromLe(b[4..8]), FromLe(b[..4]) % 2 == 1)
        else Entry(FromLe(b[..8]), FromLe(b[8..12]) % 2 == 1)
  }

  function ParseAll(v: Version, data: Bytes, at: nat, n: nat): (entries: seq<Entry>)
    requires at + ENTRY_SIZE * n <= |data|
    ensures |entries| == n
  {
    if n == 0 then []
    else ParseAll(v, data, at, n - 1) + [ParseEntry(v, data[at + ENTRY_SIZE * (n - 1)..at + ENTRY_SIZE * n])]
  }

  /** `parse_session_data` */
  function ParseTable(v: Version, data: Bytes, media: nat): Result<Tables> {
    if |data| < v.HeaderSize() then Err
    else if FromLe(data[v.ChecksumAt()..v.ChecksumAt() + 4]) != Adler32(data[..v.ChecksumAt()]) then Err
    else
      var count := FromLe(data[..4]);
      var end := v.HeaderSize() + ENTRY_SIZE * count;
      if count == 0 then Ok(Tables([], []))
      else if |data| < end + v.FooterSize() then Err
      else if FromLe(data[end..end + 4]) != Adler32(data[v.HeaderSize()..end]) then Err
      else Parse(ParseAll(v, data, v.HeaderSize(), count), media)
  }

  lemma HeaderRoundTrip(v: Version, count: nat)
    requires count < U32
    ensures var b := HeaderBytes(v, count);
            && FromLe(b[..4]) == count
            && FromLe(b[v.ChecksumAt()..v.ChecksumAt() + 4]) == Adler32(b[..v.ChecksumAt()])
  {
    hide Adler32, Le;
    var b, body := HeaderBytes(v, count), Le(count, 4) + Zeros(v.ChecksumAt() - 4);
    assert b[..4] == Le(count, 4);
    assert b[..v.ChecksumAt()] == body && b[v.ChecksumAt()..v.ChecksumAt() + 4] == Le(Adler32(body), 4);
    Le4RoundTrip(count);
    Le4RoundTrip(Adler32(body));
  }

  lemma EntryRoundTrip(v: Version, e: Entry)
    requires e.start < (if v.Ewf1? then U32 else U64)
    ensures ParseEntry(v, EntryBytes(v, e)) == e
  {
    hide Le;
    var b := EntryBytes(v, e);
    Le4RoundTrip(Flags(e));
    if v.Ewf1? {
      Le4RoundTrip(e.start);
      assert b[..4] == Le(Flags(e), 4) && b[4..8] == Le(e.start, 4);
    } else {
      Le8RoundTrip(e.start);
      assert b[..8] == Le(e.start, 8) && b[8..12] == Le(Flags(e), 4);
    }
  }

  lemma {:induction false} EntriesRoundTrip(v: Version, data: Bytes, at: nat, entries: seq<Entry>, n: nat)
    requires n <= |entries| && StartsFit(v, entries) && HoldsAt(data, at, EntriesBytes(v, entries, n))
    ensures ParseAll(v, data, at, n) == entries[..n]
  {
    hide EntryBytes, ParseEntry;
    if n > 0 {
      SplitHolds(data, at, EntriesBytes(v, entries, n - 1), EntryBytes(v, entries[n - 1]));
      EntriesRoundTrip(v, data, at, entries, n - 1);
      EntryRoundTrip(v, entries[n - 1]);
      assert entries[..n] == entries[..n - 1] + [entries[n - 1]];
    }
  }

  lemma TableIsParsed(v: Version, entries: seq<Entry>, media: nat)
    requires entries != [] && |entries| < U32 && StartsFit(v, entries)
    ensures ParseTable(v, TableBytes(v, entries), media) == Parse(entries, media)
  {
    hide Parse, ParseAll, EntriesBytes, HeaderBytes, StartsFit, Adler32, Le, FromLe;
    var data, header, body := TableBytes(v, entries), HeaderBytes(v, |entries|), EntriesBytes(v, entries, |entries|);
    var end := v.HeaderSize() + ENTRY_SIZE * |entries|;
    HeaderRoundTrip(v, |entries|);
    assert data[..4] == header[..4];
    assert data[..v.ChecksumAt()] == header[..v.ChecksumAt()];
    assert data[v.ChecksumAt()..v.ChecksumAt() + 4] == header[v.ChecksumAt()..v.ChecksumAt() + 4];
    assert data[v.HeaderSize()..end] == body;
    assert data[end..end + 4] == Le(Adler32(body), 4);
    Le4RoundTrip(Adler32(body));
    EntriesRoundTrip(v, data, v.HeaderSize(), entries, |entries|);
    assert entries[..|entries|] == entries;
  }

  /** A table of sessions and tracks that the writer accepts comes back exactly when there are
      sessions and, if there are tracks too, some track starts with every session. */
  lemma TablesRoundTripExactlyWhen(v: Version, sessions: seq<Range>, tracks: seq<Range>, media: nat)
    requires CoversMedia(sessions, media) && CoversMedia(tracks, media)
    requires PrintTable(v, sessions, tracks).Ok? && PrintTable(v, sessions, tracks).value.Some?
    ensures ParseTable(v, PrintTable(v, sessions, tracks).value.value, media) == Ok(Tables(sessions, tracks))
            <==> sessions != [] && (tracks == [] || forall k | 0 <= k < |sessions| :: HasTrackAt(tracks,
                    sessions[k].first))
  {
    hide Parse, EntriesOf, TableBytes, ParseTable, StartsFit, CoversMedia, Merge, Segments, Ascends;
    var s, t := StartsOf(sessions), StartsOf(tracks);
    CoveringAscends(sessions, media);
    CoveringAscends(tracks, media);
    EntriesAreMerged(sessions, tracks, media);
    StartsRoundTrip(s, t, media);
    TableIsParsed(v, EntriesOf(sessions, tracks), media);
    SegmentsOfStarts(sessions, 0, media);
    SegmentsOfStarts(tracks, 0, media);
    assert sessions[0..] == sessions && tracks[0..] == tracks;
    StartsAreFirsts(sessions, tracks);
  }

  predicate HasTrackAt(tracks: seq<Range>, first: nat) {
    exists j | 0 <= j < |tracks| :: tracks[j].first == first
  }

  lemma StartsAreFirsts(sessions: seq<Range>, tracks: seq<Range>)
    ensures StartsWithTracks(StartsOf(sessions), 0, StartsOf(tracks))
            <==> forall k | 0 <= k < |sessions| :: HasTrackAt(tracks, sessions[k].first)
  {
    var s, t := StartsOf(sessions), StartsOf(tracks);
    forall k | 0 <= k < |sessions| ensures s[k] in t <==> HasTrackAt(tracks, sessions[k].first) {
      if j :| 0 <= j < |tracks| && tracks[j].first == sessions[k].first { assert t[j] == s[k]; }
    }
  }
}
