/** The bounded pool of segment file handles (src/image.rs, `SegmentFilePool`). */
module SegmentPool {
  import opened Basics

  type Handle = nat

  /** `files[i]` is the handle open for segment `i`; `leases[i]` counts the clones of it that
      active reads hold; `order` lists open segments, least recently used first. */
  datatype Pool = Pool(
    files: seq<Option<Handle>>,
    leases: seq<nat>,
    order: seq<nat>,
    maximum: Option<nat>,
    supplied: bool,
    nextHandle: Handle)

  predicate Distinct(s: seq<nat>) {
    forall i, j | 0 <= i < j < |s| :: s[i] != s[j]
  }

  /** `order` is a duplicate-free list of exactly the open slots, and only open handles are leased. */
  ghost predicate WellFormed(p: Pool) {
    && |p.leases| == |p.files|
    && Distinct(p.order)
    && (forall i <- p.order :: i < |p.files| && p.files[i].Some?)
    && (forall i | 0 <= i < |p.files| && p.files[i].Some? :: i in p.order && p.files[i].value < p.nextHandle)
    && (forall i | 0 <= i < |p.files| && p.files[i].None? :: p.leases[i] == 0)
  }

  ghost predicate ValidPool(p: Pool) {
    WellFormed(p) && (p.maximum.Some? ==> 1 <= p.maximum.value && |p.order| <= p.maximum.value)
  }

  function OpenCount(files: seq<Option<Handle>>): nat {
    if files == [] then 0
    else OpenCount(files[..|files| - 1]) + (if files[|files| - 1].Some? then 1 else 0)
  }

  predicate Idle(p: Pool, i: nat) {
    !p.supplied && i < |p.files| && i < |p.leases| && p.files[i].Some? && p.leases[i] == 0
  }

  /** Position in `order` of the first idle handle, or the length when there is none. */
  function FirstIdle(p: Pool, from: nat): (k: nat)
    requires from <= |p.order|
    ensures from <= k <= |p.order|
    ensures forall j | from <= j < k :: !Idle(p, p.order[j])
    ensures k < |p.order| ==> Idle(p, p.order[k])
    decreases |p.order| - from
  {
    if from == |p.order| || Idle(p, p.order[from]) then from else FirstIdle(p, from + 1)
  }

  /** Closing the handle at position `k`: the busy ones before it move to the back. */
  function CloseAt(p: Pool, k: nat): Pool
    requires k < |p.order| && p.order[k] < |p.files|
  {
    p.(files := p.files[p.order[k] := None], order := p.order[k + 1..] + p.order[..k])
  }

  /** Closes idle handles, oldest first, until at most `keep` are open or none is idle. */
  function Shrink(p: Pool, keep: nat): Pool
    decreases |p.order|
  {
    var k := FirstIdle(p, 0);
    if |p.order| <= keep || k == |p.order| then p else Shrink(CloseAt(p, k), keep)
  }

  function Without(order: seq<nat>, i: nat): (r: seq<nat>)
    ensures forall j :: j in r <==> j in order && j != i
    ensures i !in order ==> r == order
    ensures |r| <= |order|
    ensures i in order ==> |r| < |order|
  {
    if order == [] then []
    else if order[|order| - 1] == i then Without(order[..|order| - 1], i)
    else Without(order[..|order| - 1], i) + [order[|order| - 1]]
  }

  function Use(p: Pool, i: nat): Pool {
    p.(order := Without(p.order, i) + [i])
  }

  function Open(p: Pool, i: nat): Pool
    requires i < |p.files|
  {
    p.(files := p.files[i := Some(p.nextHandle)], nextHandle := p.nextHandle + 1)
  }

  datatype Acquired = Granted(handle: Handle) | Busy | Failed

  /** `acquire_path_file`: the pool afterwards and the handle, if one could be had. `opens`
      says whether opening the file would succeed. */
  function Acquire(p: Pool, i: nat, opens: bool): (r: (Pool, Acquired)) {
    if p.supplied || i >= |p.files| then (p, Failed)
    else if p.files[i].Some? then (Use(p, i), Granted(p.files[i].value))
    else
      var q := if p.maximum.Some? && p.maximum.value > 0 then Shrink(p, p.maximum.value - 1) else p;
      if p.maximum.Some? && |q.order| >= p.maximum.value then (q, Busy)
      else if !opens || i >= |q.files| then (q, Failed)
      else (Use(Open(q, i), i), Granted(q.nextHandle))
  }

  /** `file_mut`: a handle for a read under the pool's own lock, which fails rather than waits. */
  function FileMut(p: Pool, i: nat, opens: bool): (r: (Pool, Acquired)) {
    if i >= |p.files| then (p, Failed)
    else if p.files[i].Some? then (Use(p, i), Granted(p.files[i].value))
    else
      var q := if p.maximum.Some? && p.maximum.value > 0 && !p.supplied then Shrink(p, p.maximum.value - 1) else p;
      if (p.maximum.Some? && |q.order| >= p.maximum.value) || p.supplied || !opens || i >= |q.files| then (q, Failed)
      else (Use(Open(q, i), i), Granted(q.nextHandle))
  }

  /** `set_maximum_open_handles`: keeps the old limit when busy handles exceed the new one. */
  function SetMaximum(p: Pool, maximum: Option<nat>): (r: (Pool, bool)) {
    if maximum == Some(0) then (p, false)
    else if p.supplied && maximum.Some? && maximum.value < |p.order| then (p, false)
    else if maximum.None? then (p.(maximum := maximum), true)
    else
      var q := Shrink(p.(maximum := maximum), maximum.value);
      if |q.order| > maximum.value then (q.(maximum := p.maximum), false) else (q, true)
  }

  // ---------------------------------------------------------------- facts about the pool

  lemma {:induction false} OpenCountSplits(files: seq<Option<Handle>>, i: nat)
    requires i < |files| && files[i].Some?
    ensures OpenCount(files) == OpenCount(files[i := None]) + 1
  {
    var n := |files| - 1;
    if i < n {
      OpenCountSplits(files[..n], i);
      assert files[i := None][..n] == files[..n][i := None];
    } else {
      assert files[i := None][..n] == files[..n];
    }
  }

  lemma {:induction false} AllClosed(files: seq<Option<Handle>>)
    requires forall i | 0 <= i < |files| :: files[i].None?
    ensures OpenCount(files) == 0
  {
    if files != [] { AllClosed(files[..|files| - 1]); }
  }

  /** The number of open files is the length of any duplicate-free list of exactly them. */
  lemma {:induction false} OpenCountIsOrderLength(files: seq<Option<Handle>>, order: seq<nat>)
    requires Distinct(order)
    requires forall i <- order :: i < |files| && files[i].Some?
    requires forall i | 0 <= i < |files| && files[i].Some? :: i in order
    ensures OpenCount(files) == |order|
    decreases |order|
  {
    if order == [] {
      AllClosed(files);
    } else {
      var n := |order| - 1;
      var i := order[n];
      assert i in order;
      OpenCountSplits(files, i);
      assert forall j <- order :: j == i || j in order[..n];
      assert forall j <- order[..n] :: j in order && j != i;
      OpenCountIsOrderLength(files[i := None], order[..n]);
    }
  }

  lemma {:induction false} WithoutIsDistinct(order: seq<nat>, i: nat)
    requires Distinct(order)
    ensures Distinct(Without(order, i))
  {
    if order != [] {
      var n := |order| - 1;
      WithoutIsDistinct(order[..n], i);
      assert order[n] !in order[..n];
    }
  }

  /** Taking position `k` out and moving what was before it to the back. */
  lemma RotatedOrder(order: seq<nat>, k: nat)
    requires Distinct(order) && k < |order|
    ensures var r := order[k + 1..] + order[..k];
            Distinct(r) && |r| == |order| - 1 && forall i :: i in r <==> i in order && i != order[k]
  {
    var r := order[k + 1..] + order[..k];
    var m := |order| - k - 1;
    forall j | 0 <= j < |r| ensures r[j] == order[if j < m then k + 1 + j else j - m] {}
    forall i | i in order && i != order[k] ensures i in r {
      var n :| 0 <= n < |order| && order[n] == i;
      assert r[if n < k then m + n else n - k - 1] == i;
    }
    forall i | i in r ensures i in order && i != order[k] {
      var j :| 0 <= j < |r| && r[j] == i;
      assert order[if j < m then k + 1 + j else j - m] == i;
    }
  }

  /** What evicting one handle keeps: only that handle is closed, and no lease changes. */
  lemma CloseKeepsWellFormed(p: Pool, k: nat)
    requires WellFormed(p) && k < |p.order| && Idle(p, p.order[k])
    ensures var q := CloseAt(p, k);
            && WellFormed(q) && |q.order| == |p.order| - 1
            && forall i | 0 <= i < |p.files| && p.leases[i] > 0 :: q.files[i] == p.files[i]
  {
    hide Distinct;
    RotatedOrder(p.order, k);
  }

  /** No handle that an active read holds was closed or reopened between `p` and `q`. */
  ghost predicate LeasesHeld(p: Pool, q: Pool) {
    && |p.leases| == |p.files| == |q.files| && q.leases == p.leases
    && forall i | 0 <= i < |p.files| && p.leases[i] > 0 :: q.files[i] == p.files[i]
  }

  /** `q` is `p` with some idle handles closed. */
  ghost predicate ClosesIdle(p: Pool, q: Pool)
    requires |p.leases| == |p.files|
  {
    && q == p.(files := q.files, order := q.order)
    && |q.files| == |p.files| && |q.order| <= |p.order|
    && (forall i | 0 <= i < |p.files| && p.leases[i] > 0 :: q.files[i] == p.files[i])
    && (forall i | 0 <= i < |p.files| && p.files[i].None? :: q.files[i].None?)
  }

  lemma {:induction false} ShrinkClosesIdle(p: Pool, keep: nat)
    requires WellFormed(p)
    ensures WellFormed(Shrink(p, keep)) && ClosesIdle(p, Shrink(p, keep))
    ensures |Shrink(p, keep).order| > keep ==> forall i <- Shrink(p, keep).order :: !Idle(Shrink(p, keep), i)
    decreases |p.order|
  {
    var k := FirstIdle(p, 0);
    if |p.order| > keep {
      if k < |p.order| {
        CloseKeepsWellFormed(p, k);
        ShrinkClosesIdle(CloseAt(p, k), keep);
      } else {
        forall i <- p.order ensures !Idle(p, i) {
          var j :| 0 <= j < |p.order| && p.order[j] == i;
        }
      }
    }
  }

  lemma UseKeepsWellFormed(p: Pool, i: nat)
    requires WellFormed(p) && i < |p.files| && p.files[i].Some?
    ensures WellFormed(Use(p, i)) && |Use(p, i).order| == |p.order|
  {
    WithoutIsDistinct(p.order, i);
    OpenCountIsOrderLength(p.files, p.order);
    OpenCountIsOrderLength(p.files, Use(p, i).order);
  }

  lemma OpenKeepsWellFormed(p: Pool, i: nat)
    requires WellFormed(p) && i < |p.files| && p.files[i].None?
    ensures WellFormed(Use(Open(p, i), i)) && |Use(Open(p, i), i).order| == |p.order| + 1
  {
    assert i !in p.order;
  }

  /** Acquiring keeps the pool valid and every leased handle open, and reports `Busy` only
      when as many handles as the limit allows are open and all of them are leased. */
  lemma AcquireKeepsValid(p: Pool, i: nat, opens: bool)
    requires ValidPool(p)
    ensures var (q, r) := Acquire(p, i, opens);
            && ValidPool(q) && q.maximum == p.maximum && LeasesHeld(p, q)
            && GrantsNewest(q, r, i) && (r.Busy? ==> AllLeased(q))
  {
    if !p.supplied && i < |p.files| {
      if p.files[i].Some? { UseKeepsWellFormed(p, i); } else { AcquireClosedKeepsValid(p, i, opens); }
    }
  }

  /** The last element of `order` after a use is the segment used. */
  ghost predicate GrantsNewest(q: Pool, r: Acquired, i: nat) {
    r.Granted? ==> i < |q.files| && q.files[i] == Some(r.handle) && q.order != [] && q.order[|q.order| - 1] == i
  }

  ghost predicate AllLeased(q: Pool) {
    q.order != [] && forall j <- q.order :: j < |q.files| && j < |q.leases| && q.leases[j] > 0
  }

  lemma AcquireByCases(p: Pool, i: nat, opens: bool)
    requires ValidPool(p)
    ensures p.supplied || i >= |p.files| ==> Acquire(p, i, opens) == (p, Failed)
    ensures !p.supplied && i < |p.files| && p.files[i].Some? ==>
            Acquire(p, i, opens) == (Use(p, i), Granted(p.files[i].value))
    ensures !p.supplied && i < |p.files| && p.files[i].None? ==>
              var q := if p.maximum.Some? then Shrink(p, p.maximum.value - 1) else p;
              && i < |q.files| && |Open(q, i).files| == |q.files| && Open(q, i).files[i] == Some(q.nextHandle)
              && Acquire(p, i, opens) == if p.maximum.Some? && |q.order| >= p.maximum.value then (q, Busy)
                                         else if !opens then (q, Failed)
                                         else (Use(Open(q, i), i), Granted(q.nextHandle))
  {
    if p.maximum.Some? { ShrinkClosesIdle(p, p.maximum.value - 1); }
  }

  lemma AcquireClosedKeepsValid(p: Pool, i: nat, opens: bool)
    requires ValidPool(p) && !p.supplied && i < |p.files| && p.files[i].None?
    ensures var (q, r) := Acquire(p, i, opens);
            && ValidPool(q) && q.maximum == p.maximum && LeasesHeld(p, q)
            && GrantsNewest(q, r, i) && (r.Busy? ==> AllLeased(q))
  {
    var q := if p.maximum.Some? then Shrink(p, p.maximum.value - 1) else p;
    if p.maximum.Some? { ShrinkClosesIdle(p, p.maximum.value - 1); }
    if p.maximum.Some? && |q.order| >= p.maximum.value {
      assert forall j <- q.order :: !Idle(q, j);
    } else {
      OpenKeepsWellFormed(q, i);
    }
  }

  lemma SetMaximumKeepsValid(p: Pool, maximum: Option<nat>)
    requires ValidPool(p)
    ensures var (q, ok) := SetMaximum(p, maximum);
            && ValidPool(q) && q.maximum == (if ok then maximum else p.maximum) && LeasesHeld(p, q)
  {
    if maximum.Some? { ShrinkClosesIdle(p.(maximum := maximum), maximum.value); }
  }

  lemma FileMutKeepsValid(p: Pool, i: nat, opens: bool)
    requires ValidPool(p)
    ensures var (q, r) := FileMut(p, i, opens);
            && ValidPool(q) && q.maximum == p.maximum && LeasesHeld(p, q)
            && !r.Busy?
            && (r.Granted? ==> i < |q.files| && q.files[i] == Some(r.handle))
  {
    if i < |p.files| {
      if p.files[i].Some? {
        UseKeepsWellFormed(p, i);
      } else {
        var q := if p.maximum.Some? && !p.supplied then Shrink(p, p.maximum.value - 1) else p;
        if p.maximum.Some? { ShrinkClosesIdle(p, p.maximum.value - 1); }
        OpenKeepsWellFormed(q, i);
      }
    }
  }

  /** The deque after `n` busy handles went to the back, and one more step. */
  lemma RotationStep(order: seq<nat>, n: nat)
    requires n < |order|
    ensures var rotated := order[n..] + order[..n];
            && rotated[0] == order[n]
            && rotated[1..] == order[n + 1..] + order[..n]
            && rotated[1..] + [order[n]] == order[n + 1..] + order[..n + 1]
  {
    var rotated := order[n..] + order[..n];
    assert order[n..][1..] == order[n + 1..];
    assert rotated[1..] == order[n..][1..] + order[..n];
    assert order[..n] + [order[n]] == order[..n + 1];
  }

  // ---------------------------------------------------------------- the pool object

  class SegmentFilePool {
    var files: seq<Option<Handle>>
    var openOrder: seq<nat>
    var maximumOpenHandles: Option<nat>
    var supplied: bool
    var leases: seq<nat>
    var nextHandle: Handle

    function View(): Pool
      reads this
    {
      Pool(files, leases, openOrder, maximumOpenHandles, supplied, nextHandle)
    }

    constructor NewPath(segmentCount: nat, maximum: Option<nat>)
      requires maximum != Some(0)
      ensures ValidPool(View()) && files == seq(segmentCount, _ => None) && maximumOpenHandles == maximum && !supplied
    {
      files := seq(segmentCount, _ => None);
      leases := seq(segmentCount, _ => 0);
      openOrder, maximumOpenHandles, supplied, nextHandle := [], maximum, false, 0;
    }

    method OpenHandles() returns (count: nat)
      requires WellFormed(View())
      ensures count == |openOrder|
    {
      count := 0;
      for i := 0 to |files|
        invariant count == OpenCount(files[..i])
      {
        assert files[..i + 1][..i] == files[..i];
        if files[i].Some? { count := count + 1; }
      }
      assert files[..|files|] == files;
      OpenCountIsOrderLength(files, openOrder);
    }

    /** Pops handles from the front, pushing busy ones back, until one idle handle is closed. */
    method CloseLeastRecentlyUsed() returns (closed: bool)
      requires |leases| == |files|
      requires forall n | 0 <= n < |openOrder| :: openOrder[n] < |files| && files[openOrder[n]].Some?
      modifies this`files, this`openOrder
      ensures var k := FirstIdle(old(View()), 0);
              && (closed <==> k < |old(openOrder)|)
              && View() == if closed then CloseAt(old(View()), k) else old(View())
    {
      hide FirstIdle;
      ghost var before, k := View(), FirstIdle(View(), 0);
      var candidates := |openOrder|;
      for n := 0 to candidates
        invariant files == before.files && n <= k
        invariant openOrder == before.order[n..] + before.order[..n]
        invariant leases == before.leases && supplied == before.supplied
      {
        RotationStep(before.order, n);
        var segment := openOrder[0];
        openOrder := openOrder[1..];
        if !supplied && leases[segment] == 0 {
          files := files[segment := None];
          assert n == k;
          return true;
        }
        openOrder := openOrder + [segment];
      }
      return false;
    }

    method MarkUsed(segment: nat)
      modifies this`openOrder
      ensures openOrder == Without(old(openOrder), segment) + [segment]
    {
      var rest := [];
      for n := 0 to |openOrder|
        invariant rest == Without(openOrder[..n], segment)
      {
        assert openOrder[..n + 1][..n] == openOrder[..n];
        if openOrder[n] != segment { rest := rest + [openOrder[n]]; }
      }
      assert openOrder[..|openOrder|] == openOrder;
      openOrder := rest + [segment];
    }

    /** Closes idle handles until at most `keep` are open; false when busy ones are in the way. */
    method CloseDownTo(keep: nat) returns (reached: bool)
      requires WellFormed(View())
      modifies this`files, this`openOrder
      ensures View() == Shrink(old(View()), keep)
      ensures reached <==> |openOrder| <= keep
    {
      reached := true;
      var count := OpenHandles();
      while reached && count > keep
        invariant count == |openOrder|
        invariant WellFormed(View()) && Shrink(View(), keep) == Shrink(old(View()), keep)
        invariant !reached ==> |openOrder| > keep && FirstIdle(View(), 0) == |openOrder|
        decreases |openOrder|, reached
      {
        ghost var k := FirstIdle(View(), 0);
        if k < |openOrder| { CloseKeepsWellFormed(View(), k); }
        assert forall n | 0 <= n < |openOrder| :: openOrder[n] in openOrder;
        reached := CloseLeastRecentlyUsed();
        count := OpenHandles();
      }
    }

    method AcquirePathFile(segment: nat, opens: bool) returns (r: Acquired)
      requires ValidPool(View())
      modifies this
      ensures ValidPool(View()) && (View(), r) == Acquire(old(View()), segment, opens)
      ensures LeasesHeld(old(View()), View())
    {
      AcquireKeepsValid(View(), segment, opens);
      AcquireByCases(View(), segment, opens);
      hide Acquire, Shrink, ValidPool, WellFormed, LeasesHeld, Without, Open, GrantsNewest, AllLeased, FirstIdle;
      if supplied || segment >= |files| { return Failed; }
      if files[segment].None? {
        var room := MakeRoom();
        if !room { return Busy; }
        if !opens { return Failed; }
        OpenFile(segment);
      }
      MarkUsed(segment);
      return Granted(files[segment].value);
    }

    /** Evicts until one more handle may be opened. */
    method MakeRoom() returns (room: bool)
      requires ValidPool(View())
      modifies this`files, this`openOrder
      ensures View() == if maximumOpenHandles.Some? then Shrink(old(View()), maximumOpenHandles.value - 1)
              else old(View())
      ensures room <==> (maximumOpenHandles.Some? ==> |openOrder| < maximumOpenHandles.value)
      ensures |files| == |old(files)|
    {
      room := true;
      if maximumOpenHandles.Some? {
        ShrinkClosesIdle(View(), maximumOpenHandles.value - 1);
        room := CloseDownTo(maximumOpenHandles.value - 1);
      }
    }

    method OpenFile(segment: nat)
      requires segment < |files|
      modifies this`files, this`nextHandle
      ensures View() == Open(old(View()), segment)
    {
      files := files[segment := Some(nextHandle)];
      nextHandle := nextHandle + 1;
    }

    method SetMaximumOpenHandles(maximum: Option<nat>) returns (ok: bool)
      requires ValidPool(View())
      modifies this
      ensures ValidPool(View()) && (View(), ok) == SetMaximum(old(View()), maximum)
      ensures LeasesHeld(old(View()), View())
    {
      SetMaximumKeepsValid(View(), maximum);
      if maximum == Some(0) { return false; }
      if supplied && maximum.Some? && maximum.value < |openOrder| { return false; }
      var previous := maximumOpenHandles;
      maximumOpenHandles := maximum;
      ok := true;
      if maximum.Some? {
        ok := CloseDownTo(maximum.value);
        if !ok { maximumOpenHandles := previous; }
      }
    }
  }
}
