/** Text as the logical-file catalog uses it: separated fields, numbers in a base, UTF-16. */
module Text {
  import opened Basics

  // ---------------------------------------------------------------- joining and splitting

  function Join<T>(parts: seq<seq<T>>, sep: T): seq<T> {
    if parts == [] then []
    else if |parts| == 1 then parts[0] else parts[0] + [sep] + Join(parts[1..], sep)
  }

  function Split<T(==)>(s: seq<T>, sep: T): (parts: seq<seq<T>>)
    ensures parts != []
  {
    if s == [] then [[]]
    else if s[0] == sep then [[]] + Split(s[1..], sep)
    else
      var rest := Split(s[1..], sep);
      [[s[0]] + rest[0]] + rest[1..]
  }

  lemma {:induction false} SplitOfPrefix<T>(a: seq<T>, sep: T, b: seq<T>)
    requires sep !in a
    ensures Split(a, sep) == [a]
    ensures Split(a + [sep] + b, sep) == [a] + Split(b, sep)
  {
    if a == [] {
      assert (a + [sep] + b)[1..] == b;
    } else {
      assert (a + [sep] + b)[1..] == a[1..] + [sep] + b;
      SplitOfPrefix(a[1..], sep, b);
      assert [a[0]] + a[1..] == a;
      assert Split(a, sep) == [[a[0]] + a[1..]] + [a[1..]][1..];
    }
  }

  /** Splitting undoes joining when no part holds the separator. */
  lemma {:induction false} SplitOfJoin<T>(parts: seq<seq<T>>, sep: T)
    requires parts != [] && forall p <- parts :: sep !in p
    ensures Split(Join(parts, sep), sep) == parts
  {
    assert parts[0] in parts;
    if |parts| == 1 {
      SplitOfPrefix(parts[0], sep, []);
    } else {
      assert forall p <- parts[1..] :: p in parts;
      SplitOfJoin(parts[1..], sep);
      SplitOfPrefix(parts[0], sep, Join(parts[1..], sep));
    }
  }

  lemma {:induction false} JoinHasOnly<T>(parts: seq<seq<T>>, sep: T, c: T)
    requires parts != [] && c != sep && forall p <- parts :: c !in p
    ensures c !in Join(parts, sep)
  {
    assert parts[0] in parts;
    if |parts| > 1 {
      assert forall p <- parts[1..] :: p in parts;
      JoinHasOnly(parts[1..], sep, c);
    }
  }

  // ---------------------------------------------------------------- numbers

  type Base = b: int | 2 <= b <= 16 witness 10

  const DIGITS: string := "0123456789abcdef"

  function Digits(n: nat, base: Base): (s: string)
    ensures s != ""
  {
    if n < base then [DIGITS[n]] else Digits(n / base, base) + [DIGITS[n % base]]
  }

  function DigitValue(c: char, base: Base): Option<nat> {
    var v := if '0' <= c <= '9' then c as int - '0' as int
             else if 'a' <= c <= 'f' then c as int - 'a' as int + 10
             else if 'A' <= c <= 'F' then c as int - 'A' as int + 10 else 16;
    if v < base then Some(v) else None
  }

  /** The value of a non-empty run of digits. */
  function ParseDigits(s: string, base: Base): Option<nat> {
    if s == "" then None
    else
      var last := DigitValue(s[|s| - 1], base);
      if last.None? then None
      else if |s| == 1 then last
      else
        var before := ParseDigits(s[..|s| - 1], base);
        if before.None? then None else Some(before.value * base + last.value)
  }

  /** Unsigned numbers may start with a plus sign. */
  function ParseUnsigned(s: string, base: Base, bound: nat): Result<nat> {
    var digits := if s != "" && s[0] == '+' then s[1..] else s;
    var v := ParseDigits(digits, base);
    if v.Some? && v.value < bound then Ok(v.value) else Err
  }

  const I63: nat := 0x8000_0000_0000_0000

  function ParseSigned(s: string): Result<int> {
    if s != "" && s[0] == '-' then
      var v := ParseDigits(s[1..], 10);
      if v.Some? && v.value <= I63 then Ok(-(v.value as int)) else Err
    else ParseUnsigned(s, 10, I63)
  }

  function Signed(n: int): (s: string)
    ensures s != ""
  {
    if n < 0 then "-" + Digits(-n, 10) else Digits(n, 10)
  }

  predicate IsDigits(s: string) { forall c <- s :: c in DIGITS }

  lemma {:induction false} DigitsAreDigits(n: nat, base: Base)
    ensures IsDigits(Digits(n, base))
  {
    if n >= base { DigitsAreDigits(n / base, base); }
  }

  lemma DigitOf(d: nat, base: Base)
    requires d < base
    ensures DigitValue(DIGITS[d], base) == Some(d)
  {}

  lemma {:induction false} DigitsRoundTrip(n: nat, base: Base)
    ensures ParseDigits(Digits(n, base), base) == Some(n)
  {
    hide DigitValue;
    if n < base {
      DigitOf(n, base);
    } else {
      Quotient(n, base);
      DigitOf(n % base, base);
      DigitsRoundTrip(n / base, base);
      DigitsGrow(n, base);
      hide Digits;
      LastDigit(Digits(n / base, base), DIGITS[n % base], base, n / base, n % base);
    }
  }

  lemma DigitsGrow(n: nat, base: Base)
    requires n >= base
    ensures Digits(n, base) == Digits(n / base, base) + [DIGITS[n % base]]
  {}

  lemma LastDigit(before: string, c: char, base: Base, high: nat, low: nat)
    requires before != "" && ParseDigits(before, base) == Some(high) && DigitValue(c, base) == Some(low)
    ensures ParseDigits(before + [c], base) == Some(high * base + low)
  {
    hide DigitValue;
    assert (before + [c])[..|before + [c]| - 1] == before;
  }

  lemma Quotient(n: nat, base: Base)
    ensures n / base * base + n % base == n && n % base < base
  {}

  lemma FirstDigit(n: nat, base: Base)
    ensures Digits(n, base)[0] in DIGITS
  {
    DigitsAreDigits(n, base);
    assert Digits(n, base)[0] in Digits(n, base);
  }

  lemma UnsignedRoundTrip(n: nat, base: Base, bound: nat)
    requires n < bound
    ensures ParseUnsigned(Digits(n, base), base, bound) == Ok(n)
  {
    hide Digits;
    DigitsRoundTrip(n, base);
    FirstDigit(n, base);
  }

  lemma SignedRoundTrip(n: int)
    requires -(I63 as int) <= n < I63
    ensures ParseSigned(Signed(n)) == Ok(n)
  {
    hide Digits;
    if n < 0 {
      DigitsRoundTrip(-n, 10);
      assert Signed(n)[1..] == Digits(-n, 10);
    } else {
      FirstDigit(n, 10);
      UnsignedRoundTrip(n, 10, I63);
    }
  }

  /** Printed numbers hold none of the separators. */
  lemma NumbersAreClean(n: int)
    ensures forall c <- Signed(n) :: c in DIGITS || c == '-'
    ensures n >= 0 ==> IsDigits(Signed(n))
  {
    hide Digits;
    DigitsAreDigits(if n < 0 then -n else n, 10);
  }

  // ---------------------------------------------------------------- UTF-16

  type Unit = u: int | 0 <= u < 0x1_0000

  function EncodeChar(c: char): (u: seq<Unit>)
    ensures u != []
  {
    var code := c as int;
    if code < 0x1_0000 then [code]
    else [0xd800 + (code - 0x1_0000) / 0x400, 0xdc00 + (code - 0x1_0000) % 0x400]
  }

  function Encode16(s: string): seq<Unit> {
    if s == "" then [] else EncodeChar(s[0]) + Encode16(s[1..])
  }

  function Decode16(u: seq<Unit>): Option<string> {
    if u == [] then Some("")
    else if 0xd800 <= u[0] < 0xdc00 then
      if |u| > 1 && 0xdc00 <= u[1] < 0xe000 then
        var rest := Decode16(u[2..]);
        if rest.None? then None
        else Some([(0x1_0000 + (u[0] as int - 0xd800) * 0x400 + (u[1] as int - 0xdc00)) as char] + rest.value)
      else None
    else if 0xdc00 <= u[0] < 0xe000 then None
    else
      var rest := Decode16(u[1..]);
      if rest.None? then None else Some([u[0] as char] + rest.value)
  }

  lemma CharRoundTrip(c: char, rest: seq<Unit>)
    ensures Decode16(EncodeChar(c) + rest) == if Decode16(rest).None? then None else Some([c] + Decode16(rest).value)
  {
    var u := EncodeChar(c) + rest;
    if c as int < 0x1_0000 { assert u[1..] == rest; } else { assert u[2..] == rest; }
  }

  lemma {:induction false} Utf16RoundTrip(s: string)
    ensures Decode16(Encode16(s)) == Some(s)
  {
    if s != "" {
      Utf16RoundTrip(s[1..]);
      CharRoundTrip(s[0], Encode16(s[1..]));
      assert [s[0]] + s[1..] == s;
    }
  }

  lemma {:induction false} EncodeOfConcatenation(a: string, b: string)
    ensures Encode16(a + b) == Encode16(a) + Encode16(b)
  {
    if a == "" {
      assert a + b == b;
    } else {
      assert (a + b)[1..] == a[1..] + b;
      EncodeOfConcatenation(a[1..], b);
    }
  }

  function UnitsToBytes(u: seq<Unit>): (b: Bytes)
    ensures |b| == 2 * |u|
  {
    if u == [] then [] else [u[0] % 256, u[0] / 256] + UnitsToBytes(u[1..])
  }

  function BytesToUnits(b: Bytes): (u: seq<Unit>)
    requires |b| % 2 == 0
    ensures |u| == |b| / 2
  {
    if b == [] then [] else [b[0] as int + 256 * (b[1] as int)] + BytesToUnits(b[2..])
  }

  lemma {:induction false} UnitsRoundTrip(u: seq<Unit>)
    ensures BytesToUnits(UnitsToBytes(u)) == u
  {
    if u != [] {
      UnitsRoundTrip(u[1..]);
      assert UnitsToBytes(u)[2..] == UnitsToBytes(u[1..]);
    }
  }
}
