/** Which handles the bounded pool closes, and when a limit or a segment is refused
    (src/image.rs, `SegmentFilePool`). */
module SegmentPoolLimits {
  import opened Basics
  import opened SegmentPool

  /** Open handles that cannot be closed: leased ones, and all of them when they were supplied. */
  ghost function Pinned(p: Pool): set<nat> {
    set i | 0 <= i < |p.files| && p.files[i].Some? && !Idle(p, i)
  }

  /** The handle `n`-th in order, counted from the least recently used, was closed. */
  predicate Closed(p: Pool, q: Pool, n: nat)
    requires n < |p.order|
  {
    var i := p.order[n];
    i < |p.files| && i < |q.files| && q.files[i] != p.files[i]
  }

  /** `q` is `p` with its oldest idle handles closed, no more than it takes to leave `keep` open. */
  ghost predicate ClosesOldest(p: Pool, q: Pool, keep: nat)
  {
    && q == p.(files := q.files, order := q.order) && |q.files| == |p.files|
    && (forall i | 0 <= i < |p.files| :: q.files[i] == p.files[i] || (Idle(p, i) && q.files[i].None?))
    && (forall m, n | 0 <= m < n < |p.order| && Idle(p, p.order[m]) && Closed(p, q, n) :: Closed(p, q, m))
    && |q.order| == if |p.order| <= keep then |p.order| else if |Pinned(p)| <= keep then keep else |Pinned(p)|
  }

  lemma {:induction false} DistinctCount(order: seq<nat>, s: set<nat>)
    requires Distinct(order) && forall i <- order :: i in s
    ensures |order| <= |s|
    ensures (forall i <- s :: i in order) ==> |order| == |s|
    decreases |order|
  {
    if order == [] {
      if forall i <- s :: i in order { assert s == {}; }
    } else {
      var n := |order| - 1;
      assert order[n] in order;
      assert forall i <- order[..n] :: i in order && i != order[n];
      DistinctCount(order[..n], s - {order[n]});
      if forall i <- s :: i in order {
        assert forall i <- s - {order[n]} :: i in order[..n];
      }
    }
  }

  lemma PinnedIsOpen(p: Pool)
    requires WellFormed(p)
    ensures |Pinned(p)| <= |p.order|
    ensures FirstIdle(p, 0) == |p.order| ==> |Pinned(p)| == |p.order|
  {
    var open := set i | i in p.order;
    DistinctCount(p.order, open);
    assert Pinned(p) <= open;
    Subset(Pinned(p), open);
    if FirstIdle(p, 0) == |p.order| {
      forall i <- open ensures i in Pinned(p) {
        var j :| 0 <= j < |p.order| && p.order[j] == i;
      }
      assert Pinned(p) == open;
    }
  }

  lemma {:induction false} Subset(a: set<nat>, b: set<nat>)
    requires a <= b
    ensures |a| <= |b|
  {
    assert b == a + (b - a);
  }

  lemma CloseKeepsPinned(p: Pool, k: nat)
    requires WellFormed(p) && k < |p.order| && Idle(p, p.order[k])
    ensures Pinned(CloseAt(p, k)) == Pinned(p)
    ensures forall i | 0 <= i < |p.files| && i != p.order[k] :: Idle(CloseAt(p, k), i) <==> Idle(p, i)
    ensures !Idle(CloseAt(p, k), p.order[k])
  {
  }

  /** If the rest was closed oldest first in the rotated order, it all was in the original order. */
  lemma CloseThenOldest(p: Pool, k: nat, q: Pool, keep: nat)
    requires WellFormed(p) && k < |p.order| && Idle(p, p.order[k]) && forall j | 0 <= j < k :: !Idle(p, p.order[j])
    requires keep < |p.order| && WellFormed(CloseAt(p, k)) && |CloseAt(p, k).order| == |p.order| - 1
    requires |Pinned(p)| < |p.order| && ClosesOldest(CloseAt(p, k), q, keep)
    ensures ClosesOldest(p, q, keep)
  {
    hide FirstIdle, Shrink, Pinned;
    var c := CloseAt(p, k);
    CloseKeepsPinned(p, k);
    forall m, n | 0 <= m < n < |p.order| && Idle(p, p.order[m]) && Closed(p, q, n)
      ensures Closed(p, q, m)
    {
      assert m >= k;
      if m > k {
        assert c.order[m - k - 1] == p.order[m] && c.order[n - k - 1] == p.order[n];
        assert Closed(c, q, n - k - 1);
        assert Closed(c, q, m - k - 1);
        assert p.order[m] != p.order[k] && p.order[n] != p.order[k];
      }
    }
  }

  lemma {:induction false} ShrinkClosesOldest(p: Pool, keep: nat)
    requires WellFormed(p)
    ensures ClosesOldest(p, Shrink(p, keep), keep)
    decreases |p.order|
  {
    var k := FirstIdle(p, 0);
    PinnedIsOpen(p);
    if |p.order| > keep && k < |p.order| {
      CloseKeepsWellFormed(p, k);
      CloseKeepsPinned(p, k);
      PinnedIsOpen(CloseAt(p, k));
      ShrinkClosesOldest(CloseAt(p, k), keep);
      hide ClosesOldest, WellFormed, Pinned;
      CloseThenOldest(p, k, Shrink(p, keep), keep);
    }
  }

  /** The segments of `order` that are open. */
  function Kept(order: seq<nat>, files: seq<Option<Handle>>): seq<nat> {
    if order == [] then []
    else
      var n := |order| - 1;
      Kept(order[..n], files) + if order[n] < |files| && files[order[n]].Some? then [order[n]] else []
  }

  lemma {:induction false} KeptJoins(a: seq<nat>, b: seq<nat>, files: seq<Option<Handle>>)
    ensures Kept(a + b, files) == Kept(a, files) + Kept(b, files)
    decreases |b|
  {
    if b == [] {
      assert a + b == a;
    } else {
      var n := |b| - 1;
      assert (a + b)[..|a| + n] == a + b[..n];
      KeptJoins(a, b[..n], files);
    }
  }

  lemma {:induction false} OpenAreKept(order: seq<nat>, files: seq<Option<Handle>>)
    requires forall i <- order :: i < |files| && files[i].Some?
    ensures Kept(order, files) == order
    decreases |order|
  {
    if order != [] {
      var n := |order| - 1;
      assert order[n] in order;
      OpenAreKept(order[..n], files);
      assert order == order[..n] + [order[n]];
    }
  }

  /** Leaving out a closed handle between two rotated parts leaves the same order. */
  lemma RotationKeeps(order: seq<nat>, k: nat, last: nat, files: seq<Option<Handle>>)
    requires k < last <= |order| && order[k] < |files| && files[order[k]].None?
    ensures var c := order[k + 1..] + order[..k];
            var n := last - k - 1;
            Kept(c[n..] + c[..n], files) == Kept(order[last..] + order[..last], files)
  {
    var c, n := order[k + 1..] + order[..k], last - k - 1;
    assert c[n..] + c[..n] == order[last..] + (order[..k] + order[k + 1..last]);
    assert order[..last] == order[..k] + [order[k]] + order[k + 1..last];
    KeptJoins(order[last..], order[..k] + order[k + 1..last], files);
    KeptJoins(order[..k], order[k + 1..last], files);
    KeptJoins(order[last..], order[..last], files);
    KeptJoins(order[..k] + [order[k]], order[k + 1..last], files);
    KeptJoins(order[..k], [order[k]], files);
    assert Kept([order[k]], files) == [];
    assert Kept(order[..k], files) + [] == Kept(order[..k], files);
    assert Kept(order[last..], files) + (Kept(order[..k], files) + Kept(order[k + 1..last], files))
        == Kept(order[last..], files) + ((Kept(order[..k], files) + []) + Kept(order[k + 1..last], files));
  }

  /** What was closed last after position `k` was closed, in terms of the original order. */
  lemma ClosedInRest(p: Pool, k: nat, q: Pool, n: nat)
    requires WellFormed(p) && k < |p.order| && Idle(p, p.order[k]) && forall j | 0 <= j < k :: !Idle(p, p.order[j])
    requires var c := CloseAt(p, k);
             && WellFormed(c) && |c.order| == |p.order| - 1 && ClosesIdle(c, q)
             && (forall i | 0 <= i < |p.files| :: q.files[i] == c.files[i] || Idle(c, i))
             && n <= |c.order| && (if n == 0 then q == c else Closed(c, q, n - 1))
             && forall m | n <= m < |c.order| :: !Closed(c, q, m)
    ensures k + 1 + n <= |p.order| && q.files[p.order[k]].None? && Closed(p, q, k + n)
    ensures forall m | k + 1 + n <= m < |p.order| :: !Closed(p, q, m)
  {
    var c, rest := CloseAt(p, k), |p.order| - k - 1;
    CloseKeepsPinned(p, k);
    if n > rest { assert false; }
    if n > 0 { assert c.order[n - 1] == p.order[k + n]; }
    forall m | k + 1 + n <= m < |p.order| ensures !Closed(p, q, m) {
      assert c.order[m - k - 1] == p.order[m] && !Closed(c, q, m - k - 1);
    }
  }

  /** `q` has what `p` had open in the same order, turned to start after position `last`, the
      last one closed. */
  ghost predicate Rotates(p: Pool, q: Pool, last: nat) {
    && last <= |p.order| && q.order == Kept(p.order[last..] + p.order[..last], q.files)
    && (if last == 0 then q == p else Closed(p, q, last - 1))
    && forall n | last <= n < |p.order| :: !Closed(p, q, n)
  }

  lemma NothingRotates(p: Pool)
    requires WellFormed(p)
    ensures Rotates(p, p, 0)
  {
    OpenAreKept(p.order, p.files);
    assert p.order[0..] + p.order[..0] == p.order;
  }

  lemma CloseThenRotates(p: Pool, k: nat, q: Pool, n: nat)
    requires WellFormed(p) && k < |p.order| && Idle(p, p.order[k]) && forall j | 0 <= j < k :: !Idle(p, p.order[j])
    requires var c := CloseAt(p, k);
             && WellFormed(c) && |c.order| == |p.order| - 1 && ClosesIdle(c, q) && Rotates(c, q, n)
             && (forall i | 0 <= i < |p.files| :: q.files[i] == c.files[i] || Idle(c, i))
    ensures Rotates(p, q, k + 1 + n)
  {
    hide Kept, Idle, Distinct;
    ClosedInRest(p, k, q, n);
    assert p.order[k] in p.order;
    hide WellFormed, ClosesIdle, Closed;
    RotationKeeps(p.order, k, k + 1 + n, q.files);
  }

  /** The handles left stay in their order of use, seen from the last one closed. */
  lemma {:induction false} ShrinkRotates(p: Pool, keep: nat) returns (last: nat)
    requires WellFormed(p)
    ensures Rotates(p, Shrink(p, keep), last)
    decreases |p.order|
  {
    hide Rotates, Distinct;
    var k, q := FirstIdle(p, 0), Shrink(p, keep);
    if |p.order| <= keep || k == |p.order| {
      last := 0;
      NothingRotates(p);
    } else {
      var c := CloseAt(p, k);
      CloseKeepsWellFormed(p, k);
      ShrinkClosesIdle(c, keep);
      ShrinkClosesOldest(c, keep);
      var n := ShrinkRotates(c, keep);
      last := k + 1 + n;
      CloseThenRotates(p, k, q, n);
    }
  }

  // ---------------------------------------------------------------- when a request is met

  /** A new limit is accepted exactly when closing idle handles can meet it. Then the oldest
      idle handles are closed, and no more than needed; a refused limit that could have been met
      in part has still closed every idle handle. */
  lemma LimitIsAcceptedExactlyWhen(p: Pool, maximum: Option<nat>)
    requires ValidPool(p)
    ensures var (q, ok) := SetMaximum(p, maximum);
            && (ok <==> maximum.None? || (maximum.value > 0 && |Pinned(p)| <= maximum.value))
            && (maximum.None? || maximum == Some(0) || p.supplied ==> q == p.(maximum := q.maximum))
            && (maximum.Some? && maximum.value > 0 ==> ClosesOldest(p, q.(maximum := p.maximum), maximum.value))
  {
    PinnedIsOpen(p);
    if maximum.Some? && maximum.value > 0 {
      var other := p.(maximum := maximum);
      var closed := Shrink(other, maximum.value);
      PinnedIgnoresLimit(p, maximum);
      ShrinkClosesIdle(other, maximum.value);
      ShrinkClosesOldest(other, maximum.value);
      ClosingIgnoresLimit(p, maximum, closed, maximum.value);
      if p.supplied {
        NoneIdle(p, maximum.value);
        NoneIdle(other, maximum.value);
      }
      hide ClosesOldest, Shrink, Pinned, FirstIdle;
    }
  }

  lemma ClosingIgnoresLimit(p: Pool, maximum: Option<nat>, q: Pool, keep: nat)
    requires ClosesOldest(p.(maximum := maximum), q, keep)
    ensures ClosesOldest(p, q.(maximum := p.maximum), keep)
  {
    var other, same := p.(maximum := maximum), q.(maximum := p.maximum);
    PinnedIgnoresLimit(p, maximum);
    assert forall n | 0 <= n < |p.order| :: Closed(other, q, n) <==> Closed(p, same, n);
  }

  lemma PinnedIgnoresLimit(p: Pool, maximum: Option<nat>)
    ensures Pinned(p.(maximum := maximum)) == Pinned(p)
    ensures forall i :: Idle(p.(maximum := maximum), i) <==> Idle(p, i)
  {
  }

  lemma NoneIdle(p: Pool, keep: nat)
    requires WellFormed(p) && p.supplied
    ensures Shrink(p, keep) == p && |Pinned(p)| == |p.order| && ClosesOldest(p, p, keep)
  {
    PinnedIsOpen(p);
  }

  /** A segment can be opened when fewer handles are pinned than the limit allows. */
  ghost predicate HasRoom(p: Pool) {
    p.maximum.Some? ==> |Pinned(p)| < p.maximum.value
  }

  /** `q` is `p` after opening segment `i`, with the oldest idle handles closed to make room. */
  ghost predicate OpensSegment(p: Pool, q: Pool, i: nat)
    requires i < |p.files|
  {
    exists room: Pool ::
      && |room.files| == |p.files|
      && (if p.maximum.Some? && p.maximum.value > 0 then ClosesOldest(p, room, p.maximum.value - 1) else room == p)
      && q == room.(files := room.files[i := Some(p.nextHandle)], order := room.order + [i],
                    nextHandle := p.nextHandle + 1)
  }

  lemma RoomIsMade(p: Pool, i: nat) returns (room: Pool)
    requires ValidPool(p) && !p.supplied && i < |p.files| && p.files[i].None?
    ensures room == if p.maximum.Some? && p.maximum.value > 0 then Shrink(p, p.maximum.value - 1) else p
    ensures |room.files| == |p.files| && room.nextHandle == p.nextHandle
    ensures OpensSegment(p, Use(Open(room, i), i), i)
    ensures HasRoom(p) <==> !(p.maximum.Some? && |room.order| >= p.maximum.value)
  {
    room := p;
    PinnedIsOpen(p);
    if p.maximum.Some? {
      room := Shrink(p, p.maximum.value - 1);
      ShrinkClosesIdle(p, p.maximum.value - 1);
      ShrinkClosesOldest(p, p.maximum.value - 1);
    }
    hide Shrink, Idle, Distinct, FirstIdle, Pinned, OpensSegment, Use, Open;
    ClosedIsNotInOrder(room, i);
    OpenedSegment(p, room, i);
  }

  lemma ClosedIsNotInOrder(p: Pool, i: nat)
    requires WellFormed(p) && i < |p.files| && p.files[i].None?
    ensures i !in p.order
  {
  }

  lemma OpenedSegment(p: Pool, room: Pool, i: nat)
    requires i < |p.files| == |room.files| && i !in room.order && room.nextHandle == p.nextHandle
    requires if p.maximum.Some? && p.maximum.value > 0 then ClosesOldest(p, room, p.maximum.value - 1) else room == p
    ensures OpensSegment(p, Use(Open(room, i), i), i)
  {
    hide ClosesOldest;
    assert Without(room.order, i) == room.order;
  }

  /** `file_mut` hands out a segment exactly when it is open, or when it can be opened and there
      is or can be made room for it. */
  lemma FileMutGrantsExactlyWhen(p: Pool, i: nat, opens: bool)
    requires ValidPool(p)
    ensures var (q, r) := FileMut(p, i, opens);
            && (r.Granted? <==> i < |p.files| && (p.files[i].Some? || (!p.supplied && opens && HasRoom(p))))
            && (r.Granted? && p.files[i].Some? ==> r.handle == p.files[i].value && q == p.(order := q.order))
            && (r.Granted? && p.files[i].None? ==> r.handle == p.nextHandle && OpensSegment(p, q, i))
  {
    if i < |p.files| && p.files[i].None? && !p.supplied {
      var room := RoomIsMade(p, i);
      hide OpensSegment, HasRoom, Shrink, Open, Use, WellFormed;
    }
  }

  /** A positioned read gets its segment exactly when that is open or can be opened; it has to
      wait exactly when every handle the limit allows is held by another read. */
  lemma AcquireGrantsExactlyWhen(p: Pool, i: nat, opens: bool)
    requires ValidPool(p)
    ensures var (q, r) := Acquire(p, i, opens);
            var possible := !p.supplied && i < |p.files|;
            && (r.Granted? <==> possible && (p.files[i].Some? || (opens && HasRoom(p))))
            && (r.Busy? <==> possible && p.files[i].None? && !HasRoom(p))
            && (r.Granted? && p.files[i].Some? ==> r.handle == p.files[i].value && q == p.(order := q.order))
            && (r.Granted? && p.files[i].None? ==> r.handle == p.nextHandle && OpensSegment(p, q, i))
  {
    if i < |p.files| && p.files[i].None? && !p.supplied {
      var room := RoomIsMade(p, i);
      hide OpensSegment, HasRoom, Shrink, Open, Use, WellFormed;
    }
  }

  lemma WithoutOne(order: seq<nat>, x: nat, i: nat)
    ensures Without(order + [x], i) == Without(order, i) + if x == i then [] else [x]
  {
    assert (order + [x])[..|order|] == order;
  }

  lemma {:induction false} WithoutJoins(a: seq<nat>, b: seq<nat>, i: nat)
    requires i !in b
    ensures Without(a + b, i) == Without(a, i) + b
    decreases |b|
  {
    hide Without;
    if b == [] {
      assert a + b == a;
    } else {
      var n := |b| - 1;
      assert b[n] in b;
      WithoutJoins(a, b[..n], i);
      WithoutOne(a + b[..n], b[n], i);
      assert a + b[..n] + [b[n]] == a + b;
    }
  }

  lemma WithoutMiddle(a: seq<nat>, b: seq<nat>, i: nat)
    requires i !in a && i !in b
    ensures Without(a + [i] + b, i) == a + b
  {
    hide Without;
    WithoutJoins(a + [i], b, i);
    WithoutOne(a, i, i);
    assert Without(a, i) + [] == Without(a, i) == a;
  }

  /** Using an open segment moves it to the end and leaves the others as they were. */
  lemma UseMovesToTheEnd(order: seq<nat>, n: nat)
    requires Distinct(order) && n < |order|
    ensures Without(order, order[n]) + [order[n]] == order[..n] + order[n + 1..] + [order[n]]
  {
    hide Without;
    var i := order[n];
    assert order == order[..n] + [i] + order[n + 1..];
    assert i !in order[..n] && i !in order[n + 1..];
    WithoutMiddle(order[..n], order[n + 1..], i);
  }
}
