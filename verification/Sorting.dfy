/** Stable sorting by a key, as the library's calls of `sort_by_key` do it. */
module Sorting {
  function Insert<T>(key: T -> nat, x: T, sorted: seq<T>): (s: seq<T>)
    ensures |s| == |sorted| + 1 && multiset(s) == multiset(sorted) + multiset{x}
  {
    if sorted == [] then [x]
    else
      var n := |sorted| - 1;
      assert sorted == sorted[..n] + [sorted[n]];
      if key(sorted[n]) <= key(x) then sorted + [x] else Insert(key, x, sorted[..n]) + [sorted[n]]
  }

  function SortedBy<T>(key: T -> nat, items: seq<T>): (s: seq<T>)
    ensures |s| == |items| && multiset(s) == multiset(items)
  {
    if items == [] then []
    else
      var n := |items| - 1;
      assert items == items[..n] + [items[n]];
      Insert(key, items[n], SortedBy(key, items[..n]))
  }

  predicate OrderedBy<T>(key: T -> nat, s: seq<T>) {
    forall i, j | 0 <= i < j < |s| :: key(s[i]) <= key(s[j])
  }

  /** The key tells the elements apart. */
  predicate ToldApartBy<T(==)>(key: T -> nat, s: seq<T>) {
    forall i, j | 0 <= i < |s| && 0 <= j < |s| && key(s[i]) == key(s[j]) :: s[i] == s[j]
  }

  lemma {:induction false} InsertedIsOneOf<T>(key: T -> nat, x: T, sorted: seq<T>, i: nat)
    requires i <= |sorted|
    ensures Insert(key, x, sorted)[i] == x || Insert(key, x, sorted)[i] in sorted
  {
    if sorted != [] && key(sorted[|sorted| - 1]) > key(x) && i < |sorted| {
      InsertedIsOneOf(key, x, sorted[..|sorted| - 1], i);
    }
  }

  lemma AppendKeepsOrdered<T>(key: T -> nat, s: seq<T>, x: T)
    requires OrderedBy(key, s) && forall i | 0 <= i < |s| :: key(s[i]) <= key(x)
    ensures OrderedBy(key, s + [x])
  {}

  lemma {:induction false} InsertKeepsOrdered<T>(key: T -> nat, x: T, sorted: seq<T>)
    requires OrderedBy(key, sorted)
    ensures OrderedBy(key, Insert(key, x, sorted))
  {
    if sorted != [] {
      var n := |sorted| - 1;
      if key(sorted[n]) > key(x) {
        var rest := Insert(key, x, sorted[..n]);
        InsertKeepsOrdered(key, x, sorted[..n]);
        forall i | 0 <= i <= n ensures key(rest[i]) <= key(sorted[n]) {
          InsertedIsOneOf(key, x, sorted[..n], i);
        }
        AppendKeepsOrdered(key, rest, sorted[n]);
      } else {
        AppendKeepsOrdered(key, sorted, x);
      }
    }
  }

  lemma {:induction false} SortedIsOrdered<T>(key: T -> nat, items: seq<T>)
    ensures OrderedBy(key, SortedBy(key, items))
  {
    if items != [] {
      var n := |items| - 1;
      SortedIsOrdered(key, items[..n]);
      InsertKeepsOrdered(key, items[n], SortedBy(key, items[..n]));
    }
  }

  lemma WithoutLast<T>(s: seq<T>)
    requires s != []
    ensures s == s[..|s| - 1] + [s[|s| - 1]]
    ensures multiset(s[..|s| - 1]) == multiset(s) - multiset{s[|s| - 1]}
  {
    assert s == s[..|s| - 1] + [s[|s| - 1]];
  }

  lemma LastsAgree<T>(key: T -> nat, a: seq<T>, b: seq<T>)
    requires OrderedBy(key, a) && OrderedBy(key, b) && ToldApartBy(key, b)
    requires multiset(a) == multiset(b) && |a| == |b| > 0
    ensures a[|a| - 1] == b[|b| - 1]
  {
    var n := |b| - 1;
    assert a[n] in multiset(a) && b[n] in multiset(b);
    assert a[n] in multiset(b) && b[n] in multiset(a);
    var i :| 0 <= i <= n && b[i] == a[n];
    var j :| 0 <= j <= n && a[j] == b[n];
    assert key(a[j]) <= key(a[n]) && key(b[i]) <= key(b[n]);
  }

  /** Elements that their keys tell apart have one arrangement in order. */
  lemma {:induction false} OneArrangement<T>(key: T -> nat, a: seq<T>, b: seq<T>)
    requires OrderedBy(key, a) && OrderedBy(key, b) && ToldApartBy(key, b)
    requires multiset(a) == multiset(b) && |a| == |b|
    ensures a == b
    decreases |b|
  {
    if b != [] {
      var n := |b| - 1;
      LastsAgree(key, a, b);
      WithoutLast(a);
      WithoutLast(b);
      OneArrangement(key, a[..n], b[..n]);
    }
  }
}
