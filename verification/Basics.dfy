/** Options, results, bytes, little-endian numbers and Adler-32, shared by the models. */
module Basics {
  datatype Option<+T> = None | Some(value: T)

  datatype Result<+T> = Ok(value: T) | Err
  {
    predicate IsFailure() { Err? }
    function PropagateFailure<U>(): Result<U>
      requires Err?
    {
      Err
    }
    function Extract(): T
      requires Ok?
    {
      value
    }
  }

  type Byte = x: int | 0 <= x < 256
  type Bytes = seq<Byte>

  function Min(a: int, b: int): int { if a < b then a else b }
  function Max(a: int, b: int): int { if a < b then b else a }
  function SaturatingSub(a: nat, b: nat): nat { if a < b then 0 else a - b }

  const U31: nat := 0x8000_0000
  const U32: nat := 0x1_0000_0000
  const U64: nat := 0x1_0000_0000_0000_0000

  /** `n` in `width` little-endian bytes. */
  function Le(n: nat, width: nat): (b: Bytes)
    ensures |b| == width
  {
    if width == 0 then [] else [n % 256] + Le(n / 256, width - 1)
  }

  function FromLe(b: Bytes): nat {
    if b == [] then 0 else b[0] + 256 * FromLe(b[1..])
  }

  function Pow256(width: nat): nat {
    if width == 0 then 1 else 256 * Pow256(width - 1)
  }

  lemma {:induction false} LeRoundTrip(n: nat, width: nat)
    requires n < Pow256(width)
    ensures FromLe(Le(n, width)) == n
  {
    if width > 0 {
      LeRoundTrip(n / 256, width - 1);
      assert Le(n, width)[1..] == Le(n / 256, width - 1);
    }
  }

  lemma Le4RoundTrip(n: nat)
    requires n < U32
    ensures FromLe(Le(n, 4)) == n
  {
    assert Pow256(2) == 0x1_0000;
    assert Pow256(4) == U32;
    LeRoundTrip(n, 4);
  }

  lemma Le8RoundTrip(n: nat)
    requires n < U64
    ensures FromLe(Le(n, 8)) == n
  {
    assert Pow256(2) == 0x1_0000;
    assert Pow256(4) == 0x1_0000_0000;
    assert Pow256(6) == 0x1_0000_0000_0000;
    assert Pow256(8) == U64;
    LeRoundTrip(n, 8);
  }

  function Zeros(n: nat): (b: Bytes)
    ensures |b| == n && forall i | 0 <= i < n :: b[i] == 0
  {
    seq(n, _ => 0)
  }

  // ---------------------------------------------------------------- Adler-32, section 8.2 of RFC 1950

  const MOD_ADLER: nat := 65521

  function AdlerLow(data: Bytes, n: nat): (a: nat)
    requires n <= |data|
    ensures a < MOD_ADLER
  {
    if n == 0 then 1 else (AdlerLow(data, n - 1) + data[n - 1]) % MOD_ADLER
  }

  function AdlerHigh(data: Bytes, n: nat): (b: nat)
    requires n <= |data|
    ensures b < MOD_ADLER
  {
    if n == 0 then 0 else (AdlerHigh(data, n - 1) + AdlerLow(data, n)) % MOD_ADLER
  }

  function Adler32(data: Bytes): (c: nat)
    ensures c < U32
  {
    AdlerHigh(data, |data|) * 0x1_0000 + AdlerLow(data, |data|)
  }

  method ComputeAdler32(data: Bytes) returns (c: nat)
    ensures c == Adler32(data)
  {
    var a, b := 1, 0;
    for i := 0 to |data|
      invariant a == AdlerLow(data, i) && b == AdlerHigh(data, i)
    {
      a := (a + data[i]) % MOD_ADLER;
      b := (b + a) % MOD_ADLER;
    }
    c := b * 0x1_0000 + a;
  }

  /** A stored checksum of zero counts as absent. */
  predicate ChecksumAccepted(stored: nat, data: Bytes) {
    stored == 0 || stored == Adler32(data)
  }

  // ---------------------------------------------------------------- bytes in a file

  function ReadExact(file: Bytes, offset: nat, size: nat): (r: Result<Bytes>)
    ensures r.Ok? ==> |r.value| == size
  {
    if offset + size > |file| then Err else Ok(file[offset..offset + size])
  }

  /** The file has `b` at `offset`. */
  ghost predicate HoldsAt(file: Bytes, offset: nat, b: Bytes) {
    offset + |b| <= |file| && file[offset..offset + |b|] == b
  }

  lemma SplitHolds(file: Bytes, offset: nat, a: Bytes, b: Bytes)
    requires HoldsAt(file, offset, a + b)
    ensures HoldsAt(file, offset, a) && HoldsAt(file, offset + |a|, b)
  {
    var whole := file[offset..offset + |a + b|];
    assert whole[..|a|] == a && whole[|a|..] == b;
    assert file[offset..offset + |a|] == whole[..|a|];
    assert file[offset + |a|..offset + |a| + |b|] == whole[|a|..];
  }

  lemma SplitThree(file: Bytes, offset: nat, a: Bytes, b: Bytes, c: Bytes)
    requires HoldsAt(file, offset, a + b + c)
    ensures HoldsAt(file, offset, a) && HoldsAt(file, offset + |a|, b) && HoldsAt(file, offset + |a| + |b|, c)
  {
    SplitHolds(file, offset, a + b, c);
    SplitHolds(file, offset, a, b);
  }

  // ---------------------------------------------------------------- sequences

  function Concat<T>(parts: seq<seq<T>>): seq<T> {
    if parts == [] then [] else Concat(parts[..|parts| - 1]) + parts[|parts| - 1]
  }

  function Sum(sizes: seq<nat>): nat {
    if sizes == [] then 0 else Sum(sizes[..|sizes| - 1]) + sizes[|sizes| - 1]
  }

  lemma SumOfPrefix(sizes: seq<nat>, i: nat)
    requires i < |sizes|
    ensures Sum(sizes[..i + 1]) == Sum(sizes[..i]) + sizes[i]
  {
    assert sizes[..i + 1][..i] == sizes[..i];
  }

  lemma {:induction false} SumIsMonotone(sizes: seq<nat>, i: nat, j: nat)
    requires i <= j <= |sizes|
    ensures Sum(sizes[..i]) <= Sum(sizes[..j])
    decreases j - i
  {
    if i < j {
      SumIsMonotone(sizes, i, j - 1);
      SumOfPrefix(sizes, j - 1);
    }
  }

  lemma {:induction false} SumOfConcatenation(a: seq<nat>, b: seq<nat>)
    ensures Sum(a + b) == Sum(a) + Sum(b)
  {
    if b == [] {
      assert a + b == a;
    } else {
      SumOfConcatenation(a, b[..|b| - 1]);
      assert (a + b)[..|a + b| - 1] == a + b[..|b| - 1];
    }
  }

  lemma {:induction false} ConcatOfConcatenation<T>(a: seq<seq<T>>, b: seq<seq<T>>)
    ensures Concat(a + b) == Concat(a) + Concat(b)
  {
    if b == [] {
      assert a + b == a;
    } else {
      ConcatOfConcatenation(a, b[..|b| - 1]);
      assert (a + b)[..|a + b| - 1] == a + b[..|b| - 1];
    }
  }
}
