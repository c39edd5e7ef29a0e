/** The cells of catalog rows: how each kind of value is printed (src/writer.rs) and parsed
    (src/single_files.rs). */
module CatalogCells {
  import opened Basics
  import opened Text

  datatype Extent = Extent(dataOffset: nat, dataSize: nat, sparse: bool)
  datatype Attribute = Attribute(name: Option<string>, value: Option<string>)
  datatype EntryType = File | Directory | Unknown

  datatype Value =
    | TextValue(text: string)
    | NumberValue(number: int)
    | TypeValue(entryType: EntryType)
    | ExtentsValue(extents: seq<Extent>)
    | AttributesValue(attributes: seq<Attribute>)

  datatype Kind =
    | AnyText | HexText | ShortName | OneChar
    | U64Number | U32Number | I64Number | I32Number | Identifier
    | EntryKind | ExtentList | AttributeList

  const I31: nat := 0x8000_0000

  predicate Breaks(c: char) { c == '\t' || c == '\n' || c == '\r' }

  /** No character that separates fields or lines. */
  predicate IsClean(s: string) { forall c <- s :: !Breaks(c) }

  /** `sanitize_header_value` */
  function Sanitize(s: string): (r: string)
    ensures |r| == |s| && IsClean(r)
  {
    seq(|s|, i requires 0 <= i < |s| => if Breaks(s[i]) then ' ' else s[i])
  }

  lemma SanitizeKeepsClean(s: string)
    requires IsClean(s)
    ensures Sanitize(s) == s
  {}

  // ---------------------------------------------------------------- short names

  function Utf8Size(s: string): nat {
    if s == "" then 0
    else
      var code := s[0] as int;
      (if code < 0x80 then 1 else if code < 0x800 then 2 else if code < 0x1_0000 then 3 else 4) + Utf8Size(s[1..])
  }

  function PrintShortName(s: string): string {
    if s == "" then "" else Digits(Utf8Size(s) + 1, 10) + " " + s
  }

  function ParseShortName(s: string): Result<string> {
    var parts := Split(s, ' ');
    if |parts| != 2 then Err
    else
      var declared :- ParseUnsigned(parts[0], 10, U64);
      if declared != Utf8Size(parts[1]) + 1 then Err else Ok(parts[1])
  }

  /** A short name reads back exactly when it has no space: the reader splits at every one. */
  lemma ShortNameRoundTripsExactlyWithoutSpaces(s: string)
    requires s != "" && Utf8Size(s) + 1 < U64
    ensures ParseShortName(PrintShortName(s)) == Ok(s) <==> ' ' !in s
    ensures ' ' in s ==> ParseShortName(PrintShortName(s)).Err?
  {
    hide Digits, Utf8Size, Split, ParseUnsigned;
    var size := Digits(Utf8Size(s) + 1, 10);
    DigitsAreDigits(Utf8Size(s) + 1, 10);
    assert ' ' !in size;
    UnsignedRoundTrip(Utf8Size(s) + 1, 10, U64);
    assert PrintShortName(s) == size + [' '] + s;
    SplitOfPrefix(size, ' ', s);
    if ' ' in s { SpaceSplits(s); } else { SplitOfPrefix(s, ' ', ""); }
  }

  lemma {:induction false} SpaceSplits(s: string)
    requires ' ' in s
    ensures |Split(s, ' ')| > 1
  {
    if s[0] != ' ' { SpaceSplits(s[1..]); }
  }

  // ---------------------------------------------------------------- hexadecimal text

  predicate IsHexDigit(c: char) { '0' <= c <= '9' || 'a' <= c <= 'f' || 'A' <= c <= 'F' }

  function Lower(s: string): (r: string)
    ensures |r| == |s|
  {
    seq(|s|, i requires 0 <= i < |s| => if 'A' <= s[i] <= 'F' then (s[i] as int + 32) as char else s[i])
  }

  /** `parse_serialized_base16_string`: all zeros means no value. */
  function ParseHexText(s: string): Result<Option<string>> {
    if exists c <- s :: !IsHexDigit(c) then Err
    else if forall c <- s :: c == '0' then Ok(None)
    else Ok(Some(Lower(s)))
  }

  // ---------------------------------------------------------------- extents

  function ExtentParts(extents: seq<Extent>): (parts: seq<string>)
  {
    if extents == [] then []
    else
      (if extents[0].sparse then ["S"] else [])
      + [Digits(extents[0].dataOffset, 16), Digits(extents[0].dataSize, 16)]
      + ExtentParts(extents[1..])
  }

  function PrintExtents(extents: seq<Extent>): string {
    if extents == [] then "" else Join([Digits(|extents|, 16)] + ExtentParts(extents), ' ')
  }

  function NonEmpty(parts: seq<string>): seq<string> {
    if parts == [] then [] else (if parts[0] == "" then [] else [parts[0]]) + NonEmpty(parts[1..])
  }

  function ParseExtentParts(parts: seq<string>): Result<seq<Extent>> {
    if parts == [] then Ok([])
    else
      var sparse := parts[0] == "S";
      var rest := if sparse then parts[1..] else parts;
      if |rest| < 2 then Err
      else
        var offset :- ParseUnsigned(rest[0], 16, U64);
        var size :- ParseUnsigned(rest[1], 16, U64);
        var more :- ParseExtentParts(rest[2..]);
        Ok([Extent(offset, size, sparse)] + more)
  }

  /** `parse_binary_extents` */
  function ParseExtents(s: string): Result<seq<Extent>> {
    var parts := NonEmpty(Split(s, ' '));
    if parts == [] then Err
    else
      var count :- ParseUnsigned(parts[0], 16, U64);
      var extents :- ParseExtentParts(parts[1..]);
      if |extents| != count then Err else Ok(extents)
  }

  method ReadExtents(s: string) returns (r: Result<seq<Extent>>)
    ensures r == ParseExtents(s)
  {
    hide ParseUnsigned, Split, NonEmpty;
    var parts := NonEmpty(Split(s, ' '));
    if parts == [] { return Err; }
    var count :- ParseUnsigned(parts[0], 16, U64);
    var extents, rest := [], parts[1..];
    ghost var all := ParseExtentParts(parts[1..]);
    assert all.Ok? ==> [] + all.value == all.value;
    while rest != []
      invariant ParseExtentParts(parts[1..])
                == (if ParseExtentParts(rest).Ok? then Ok(extents + ParseExtentParts(rest).value) else Err)
      decreases |rest|
    {
      var sparse := rest[0] == "S";
      var pair := if sparse then rest[1..] else rest;
      if |pair| < 2 { return Err; }
      var offset := ParseUnsigned(pair[0], 16, U64);
      if offset.Err? { return Err; }
      var size := ParseUnsigned(pair[1], 16, U64);
      if size.Err? { return Err; }
      ghost var more := ParseExtentParts(pair[2..]);
      assert more.Ok? ==> extents + ([Extent(offset.value, size.value, sparse)] + more.value)
                          == extents + [Extent(offset.value, size.value, sparse)] + more.value;
      extents, rest := extents + [Extent(offset.value, size.value, sparse)], pair[2..];
    }
    assert extents + [] == extents;
    if |extents| != count { return Err; }
    return Ok(extents);
  }

  predicate CanonicalExtents(extents: seq<Extent>) {
    0 < |extents| < U64 && forall x <- extents :: x.dataOffset < U64 && x.dataSize < U64
  }

  lemma {:induction false} ExtentPartsRoundTrip(extents: seq<Extent>)
    requires forall x <- extents :: x.dataOffset < U64 && x.dataSize < U64
    ensures ParseExtentParts(ExtentParts(extents)) == Ok(extents)
  {
    hide Digits, ParseUnsigned;
    if extents != [] {
      assert extents[0] in extents && forall y <- extents[1..] :: y in extents;
      ExtentPartsRoundTrip(extents[1..]);
      ExtentIsRead(extents[0], ExtentParts(extents[1..]), extents[1..]);
      assert [extents[0]] + extents[1..] == extents;
    }
  }

  lemma ExtentIsRead(x: Extent, rest: seq<string>, more: seq<Extent>)
    requires x.dataOffset < U64 && x.dataSize < U64 && ParseExtentParts(rest) == Ok(more)
    ensures ParseExtentParts((if x.sparse then ["S"] else []) + [Digits(x.dataOffset, 16), Digits(x.dataSize, 16)]
                             + rest) == Ok([x] + more)
  {
    hide Digits, ParseUnsigned;
    UnsignedRoundTrip(x.dataOffset, 16, U64);
    UnsignedRoundTrip(x.dataSize, 16, U64);
    FirstDigit(x.dataOffset, 16);
    var pair := [Digits(x.dataOffset, 16), Digits(x.dataSize, 16)];
    var parts := (if x.sparse then ["S"] else []) + pair + rest;
    if x.sparse { assert parts[1..] == pair + rest; } else { assert parts == pair + rest; }
    assert (pair + rest)[2..] == rest;
  }

  /** Extent parts hold no separator and are never empty. */
  lemma {:induction false} ExtentPartsAreWords(extents: seq<Extent>)
    ensures forall p <- ExtentParts(extents) :: IsWord(p)
  {
    hide Digits;
    if extents != [] {
      ExtentPartsAreWords(extents[1..]);
      DigitsAreWords(extents[0].dataOffset);
      DigitsAreWords(extents[0].dataSize);
    }
  }

  predicate IsWord(p: string) { p != "" && ' ' !in p && IsClean(p) }

  lemma DigitsAreWords(n: nat)
    ensures IsWord(Digits(n, 16)) && IsWord("S")
  {
    hide Digits;
    DigitsAreDigits(n, 16);
  }

  lemma {:induction false} WordsStay(parts: seq<string>)
    requires forall p <- parts :: p != ""
    ensures NonEmpty(parts) == parts
  {
    if parts != [] {
      assert parts[0] in parts && forall p <- parts[1..] :: p in parts;
      WordsStay(parts[1..]);
    }
  }

  lemma ExtentsRoundTrip(extents: seq<Extent>)
    requires CanonicalExtents(extents)
    ensures ParseExtents(PrintExtents(extents)) == Ok(extents)
    ensures PrintExtents(extents) != "" && IsClean(PrintExtents(extents))
  {
    hide Digits, Split, Join, ParseUnsigned, ExtentParts;
    var parts := [Digits(|extents|, 16)] + ExtentParts(extents);
    ExtentPartsAreWords(extents);
    DigitsAreWords(|extents|);
    SplitOfJoin(parts, ' ');
    WordsStay(parts);
    UnsignedRoundTrip(|extents|, 16, U64);
    ExtentPartsRoundTrip(extents);
    assert parts[1..] == ExtentParts(extents);
    JoinHasOnly(parts, ' ', '\t');
    JoinHasOnly(parts, ' ', '\n');
    JoinHasOnly(parts, ' ', '\r');
    JoinIsNotEmpty(parts);
  }

  lemma JoinIsNotEmpty(parts: seq<string>)
    requires parts != [] && parts[0] != ""
    ensures Join(parts, ' ') != ""
  {}

  // ---------------------------------------------------------------- extended attributes

  /** "Attributes" in UTF-16, with its terminator. */
  const HEADER_NAME: Bytes := [
    0x41, 0x00, 0x74, 0x00, 0x74, 0x00, 0x72, 0x00, 0x69, 0x00, 0x62,
    0x00, 0x75, 0x00, 0x74, 0x00, 0x65, 0x00, 0x73, 0x00, 0x00, 0x00]

  const ATTRIBUTES_HEADER: Bytes :=
    [0x00, 0x00, 0x00, 0x00, 0x01] + [0x0b, 0x00, 0x00, 0x00] + [0x01, 0x00, 0x00, 0x00] + (HEADER_NAME + [0x00, 0x00])

  /** A string with its terminator, or nothing. */
  function OptionalUnits(s: Option<string>): seq<Unit> {
    if s.None? then [] else Encode16(Sanitize(s.value)) + [0]
  }

  function RecordBytes(a: Attribute): Bytes {
    Zeros(5) + Le(|OptionalUnits(a.name)|, 4) + Le(|OptionalUnits(a.value)|, 4)
    + (UnitsToBytes(OptionalUnits(a.name)) + UnitsToBytes(OptionalUnits(a.value)))
  }

  function RecordsBytes(attributes: seq<Attribute>): Bytes {
    if attributes == [] then [] else RecordBytes(attributes[0]) + RecordsBytes(attributes[1..])
  }

  function HexBytes(b: Bytes): (s: string)
    ensures |s| == 2 * |b|
  {
    if b == [] then "" else [DIGITS[b[0] / 16], DIGITS[b[0] % 16]] + HexBytes(b[1..])
  }

  function PrintAttributes(attributes: seq<Attribute>): string {
    if attributes == [] then "" else HexBytes(ATTRIBUTES_HEADER + RecordsBytes(attributes))
  }

  predicate IsWhitespace(c: char) {
    var code := c as int;
    9 <= code <= 13 || code == 32 || code == 0x85 || code == 0xa0 || code == 0x1680 || 0x2000 <= code <= 0x200a
    || code == 0x2028 || code == 0x2029 || code == 0x202f || code == 0x205f || code == 0x3000
  }

  function WithoutWhitespace(s: string): string {
    if s == "" then "" else (if IsWhitespace(s[0]) then "" else [s[0]]) + WithoutWhitespace(s[1..])
  }

  function ParsePairs(s: string): Result<Bytes> {
    if s == "" then Ok([])
    else if |s| == 1 then Err
    else
      var b :- ParseUnsigned(s[..2], 16, 256);
      var rest :- ParsePairs(s[2..]);
      Ok([b] + rest)
  }

  function DecodeOptional(b: Bytes): Result<Option<string>> {
    if b == [] then Ok(None)
    else if |b| % 2 != 0 then Err
    else
      var decoded := Decode16(BytesToUnits(b));
      if decoded.None? then Err
      else
        var s := decoded.value;
        var text := if s != "" && s[|s| - 1] == '\0' then s[..|s| - 1] else s;
        Ok(if text == "" then None else Some(text))
  }

  /** One record: the attribute, unless it is a branch, and the bytes it takes. */
  function ParseRecord(b: Bytes): (r: Result<(Option<Attribute>, nat)>)
    ensures r.Ok? ==> 13 <= r.value.1 <= |b|
  {
    if |b| < 13 then Err
    else
      var nameEnd := 13 + 2 * FromLe(b[5..9]);
      var end := nameEnd + 2 * FromLe(b[9..13]);
      if |b| < end then Err
      else
        var name :- DecodeOptional(b[13..nameEnd]);
        var value :- DecodeOptional(b[nameEnd..end]);
        Ok((if b[4] != 0 then None else Some(Attribute(name, value)), end))
  }

  function ParseRecords(b: Bytes): Result<seq<Attribute>>
    decreases |b|
  {
    if b == [] then Ok([])
    else
      var record :- ParseRecord(b);
      var rest :- ParseRecords(b[record.1..]);
      Ok((if record.0.Some? then [record.0.value] else []) + rest)
  }

  /** `parse_extended_attributes`: the header is itself a record, a branch. */
  function ParseAttributes(s: string): Result<seq<Attribute>> {
    var data :- ParsePairs(WithoutWhitespace(s));
    if data == [] then Ok([])
    else if |data| < |ATTRIBUTES_HEADER| || data[..|ATTRIBUTES_HEADER|] != ATTRIBUTES_HEADER then Err
    else ParseRecords(data)
  }

  predicate CanonicalText(s: Option<string>) {
    s.Some? ==> s.value != "" && IsClean(s.value) && |Encode16(s.value)| + 1 < U32
  }

  predicate CanonicalAttributes(attributes: seq<Attribute>) {
    attributes != [] && forall a <- attributes :: CanonicalText(a.name) && CanonicalText(a.value)
  }

  lemma OptionalRoundTrip(s: Option<string>)
    requires CanonicalText(s)
    ensures DecodeOptional(UnitsToBytes(OptionalUnits(s))) == Ok(s)
    ensures |OptionalUnits(s)| < U32
  {
    if s.Some? {
      SanitizeKeepsClean(s.value);
      var text := s.value + "\0";
      EncodeOfConcatenation(s.value, "\0");
      assert Encode16("\0") == [0] by { assert "\0"[1..] == ""; assert EncodeChar('\0') == [0]; }
      Utf16RoundTrip(text);
      UnitsRoundTrip(OptionalUnits(s));
      hide Encode16, Decode16, UnitsToBytes, BytesToUnits, Sanitize;
      assert OptionalUnits(s) == Encode16(text);
      assert text[..|text| - 1] == s.value;
    }
  }

  lemma RecordRoundTrip(a: Attribute, rest: Bytes)
    requires CanonicalText(a.name) && CanonicalText(a.value)
    ensures ParseRecord(RecordBytes(a) + rest) == Ok((Some(a), |RecordBytes(a)|))
  {
    OptionalRoundTrip(a.name);
    OptionalRoundTrip(a.value);
    RecordIsRead(Zeros(5), UnitsToBytes(OptionalUnits(a.name)), UnitsToBytes(OptionalUnits(a.value)),
                 |OptionalUnits(a.name)|, |OptionalUnits(a.value)|, a, rest);
  }

  /** A record whose fifth byte is not zero is a branch, which adds no attribute. */
  lemma RecordIsRead(head: Bytes, name: Bytes, value: Bytes, nameUnits: nat, valueUnits: nat, a: Attribute, rest: Bytes)
    requires |head| == 5 && |name| == 2 * nameUnits && |value| == 2 * valueUnits && nameUnits < U32 && valueUnits < U32
    requires DecodeOptional(name) == Ok(a.name) && DecodeOptional(value) == Ok(a.value)
    ensures var record := head + Le(nameUnits, 4) + Le(valueUnits, 4) + (name + value);
            ParseRecord(record + rest) == Ok((if head[4] != 0 then None else Some(a), |record|))
  {
    hide DecodeOptional, Le;
    var record := head + Le(nameUnits, 4) + Le(valueUnits, 4) + (name + value);
    var b := record + rest;
    assert b[4] == head[4];
    assert b[5..9] == Le(nameUnits, 4) && b[9..13] == Le(valueUnits, 4);
    Le4RoundTrip(nameUnits);
    Le4RoundTrip(valueUnits);
    assert b[13..13 + |name|] == name && b[13 + |name|..13 + |name| + |value|] == value;
  }

  lemma {:induction false} RecordsRoundTrip(attributes: seq<Attribute>)
    requires forall a <- attributes :: CanonicalText(a.name) && CanonicalText(a.value)
    ensures ParseRecords(RecordsBytes(attributes)) == Ok(attributes)
  {
    hide ParseRecord, RecordBytes, CanonicalText;
    if attributes != [] {
      var a, rest := attributes[0], RecordsBytes(attributes[1..]);
      assert a in attributes && forall x <- attributes[1..] :: x in attributes;
      RecordsRoundTrip(attributes[1..]);
      RecordRoundTrip(a, rest);
      assert (RecordBytes(a) + rest)[|RecordBytes(a)|..] == rest;
      assert [a] + attributes[1..] == attributes;
    }
  }

  /** The header is a branch record of eleven name units and one value unit. */
  lemma HeaderIsBranch(rest: Bytes)
    ensures ParseRecord(ATTRIBUTES_HEADER + rest) == Ok((None, |ATTRIBUTES_HEADER|))
  {
    hide DecodeOptional, Le;
    HighBytesAreZero(HEADER_NAME);
    HighBytesAreZero([0, 0]);
    LeOfSmall(11);
    LeOfSmall(1);
    var name, value := DecodeOptional(HEADER_NAME), DecodeOptional([0, 0]);
    RecordIsRead([0, 0, 0, 0, 1], HEADER_NAME, [0, 0], 11, 1, Attribute(name.value, value.value), rest);
  }

  lemma LeOfSmall(n: nat)
    requires n < 256
    ensures Le(n, 4) == [n, 0, 0, 0]
  {
    assert Le(0, 1) == [0];
    assert Le(0, 2) == [0, 0];
    assert Le(0, 3) == [0, 0, 0];
  }

  /** Units below 256 always decode. */
  lemma HighBytesAreZero(b: Bytes)
    requires |b| % 2 == 0 && forall i | 0 <= i < |b| :: i % 2 == 1 ==> b[i] == 0
    ensures DecodeOptional(b).Ok?
  {
    UnitsAreSmall(b);
    SmallUnitsDecode(BytesToUnits(b));
  }

  lemma {:induction false} UnitsAreSmall(b: Bytes)
    requires |b| % 2 == 0 && forall i | 0 <= i < |b| :: i % 2 == 1 ==> b[i] == 0
    ensures forall u <- BytesToUnits(b) :: u < 256
  {
    if b != [] {
      forall i | 0 <= i < |b[2..]| ensures i % 2 == 1 ==> b[2..][i] == 0 {
        assert b[2..][i] == b[i + 2];
      }
      UnitsAreSmall(b[2..]);
      assert b[1] == 0;
    }
  }

  lemma {:induction false} SmallUnitsDecode(u: seq<Unit>)
    requires forall x <- u :: x < 256
    ensures Decode16(u).Some?
  {
    if u != [] {
      assert u[0] in u && forall x <- u[1..] :: x in u;
      SmallUnitsDecode(u[1..]);
    }
  }

  lemma {:induction false} HexRoundTrip(b: Bytes)
    ensures ParsePairs(HexBytes(b)) == Ok(b)
    ensures forall c <- HexBytes(b) :: c in DIGITS
  {
    hide ParseUnsigned;
    if b != [] {
      HexRoundTrip(b[1..]);
      HexPairRoundTrip(b[0]);
      var s := HexBytes(b);
      assert s[..2] == [DIGITS[b[0] / 16], DIGITS[b[0] % 16]] && s[2..] == HexBytes(b[1..]);
      assert [b[0]] + b[1..] == b;
    }
  }

  lemma HexPairRoundTrip(b: Byte)
    ensures ParseUnsigned([DIGITS[b / 16], DIGITS[b % 16]], 16, 256) == Ok(b)
  {
    DigitOf(b / 16, 16);
    DigitOf(b % 16, 16);
    hide DigitValue;
    assert ParseDigits([DIGITS[b / 16]], 16) == Some(b / 16);
    LastDigit([DIGITS[b / 16]], DIGITS[b % 16], 16, b / 16, b % 16);
    assert [DIGITS[b / 16]] + [DIGITS[b % 16]] == [DIGITS[b / 16], DIGITS[b % 16]];
    assert DIGITS[b / 16] != '+';
  }

  lemma {:induction false} DigitsAreNoWhitespace(s: string)
    requires forall c <- s :: c in DIGITS
    ensures WithoutWhitespace(s) == s
  {
    hide IsWhitespace;
    if s != "" {
      assert s[0] in s && forall c <- s[1..] :: c in s;
      DigitsAreNoWhitespace(s[1..]);
      DigitIsNoWhitespace(s[0]);
      assert [s[0]] + s[1..] == s;
    }
  }

  lemma DigitIsNoWhitespace(c: char)
    requires c in DIGITS
    ensures !IsWhitespace(c)
  {
    var i :| 0 <= i < |DIGITS| && DIGITS[i] == c;
  }

  lemma AttributesRoundTrip(attributes: seq<Attribute>)
    requires CanonicalAttributes(attributes)
    ensures ParseAttributes(PrintAttributes(attributes)) == Ok(attributes)
    ensures PrintAttributes(attributes) != "" && IsClean(PrintAttributes(attributes))
  {
    hide RecordsBytes, ParseRecord, HexBytes, ParsePairs, CanonicalText;
    var records := RecordsBytes(attributes);
    var data := ATTRIBUTES_HEADER + records;
    HexRoundTrip(data);
    DigitsAreNoWhitespace(HexBytes(data));
    HeaderIsBranch(records);
    RecordsRoundTrip(attributes);
    assert data[..|ATTRIBUTES_HEADER|] == ATTRIBUTES_HEADER && data[|ATTRIBUTES_HEADER|..] == records;
    assert [] + attributes == attributes;
  }

  // ---------------------------------------------------------------- any cell

  /** Prints a value of a kind; an absent value prints as nothing. */
  function Print(k: Kind, v: Value): string {
    match v
    case TextValue(text) => if k.ShortName? then PrintShortName(Sanitize(text)) else if k.OneChar? then text
        else Sanitize(text)
    case NumberValue(number) => Signed(number)
    case TypeValue(entryType) => (match entryType case File => "0" case Directory => "1" case Unknown => "u")
    case ExtentsValue(extents) => PrintExtents(extents)
    case AttributesValue(attributes) => PrintAttributes(attributes)
  }

  function Bounded(n: Result<int>, low: int, high: int): Result<Option<Value>> {
    var v :- n;
    if low <= v < high then Ok(Some(NumberValue(v))) else Err
  }

  /** Parses a non-empty cell; `None` clears the field. */
  function Parse(k: Kind, s: string): Result<Option<Value>> {
    match k
    case AnyText => Ok(Some(TextValue(s)))
    case HexText =>
      var v :- ParseHexText(s);
      Ok(if v.Some? then Some(TextValue(v.value)) else None)
    case ShortName =>
      var v :- ParseShortName(s);
      Ok(Some(TextValue(v)))
    case OneChar => if |s| == 1 then Ok(Some(TextValue(s))) else Err
    case U64Number => Bounded(ParseUnsigned(s, 10, U64), 0, U64)
    case U32Number => Bounded(ParseUnsigned(s, 10, U64), 0, U32)
    case I64Number => Bounded(ParseSigned(s), -(I63 as int), I63)
    case I32Number => Bounded(ParseSigned(s), -(I31 as int), I31)
    case Identifier => Bounded(ParseSigned(s), 0, I31)
    case EntryKind => Ok(Some(TypeValue(if s == "f" || s == "0" then File else if s == "d" || s == "1" then Directory
                                        else Unknown)))
    case ExtentList =>
      var v :- ParseExtents(s);
      Ok(if v == [] then None else Some(ExtentsValue(v)))
    case AttributeList =>
      var v :- ParseAttributes(s);
      Ok(if v == [] then None else Some(AttributesValue(v)))
  }

  predicate Between(v: Value, low: int, high: int) { v.NumberValue? && low <= v.number < high }

  predicate LowerHex(s: string) { s != "" && (forall c <- s :: c in DIGITS) && exists c <- s :: c != '0' }

  /** A value that prints to a cell its kind can hold. */
  predicate CanonicalValue(k: Kind, v: Value) {
    match k
    case AnyText => v.TextValue? && v.text != "" && IsClean(v.text)
    case HexText => v.TextValue? && LowerHex(v.text)
    case ShortName => v.TextValue? && v.text != "" && IsClean(v.text) && ' ' !in v.text && Utf8Size(v.text) + 1 < U64
    case OneChar => v.TextValue? && |v.text| == 1 && IsClean(v.text)
    case U64Number => Between(v, 0, U64)
    case U32Number => Between(v, 0, U32)
    case I64Number => Between(v, -(I63 as int), I63)
    case I32Number => Between(v, -(I31 as int), I31)
    case Identifier => Between(v, 0, I31)
    case EntryKind => v.TypeValue?
    case ExtentList => v.ExtentsValue? && CanonicalExtents(v.extents)
    case AttributeList => v.AttributesValue? && CanonicalAttributes(v.attributes)
  }

  predicate IsCell(s: string) { s != "" && IsClean(s) }

  lemma TextRoundTrip(k: Kind, v: Value)
    requires (k.AnyText? || k.HexText? || k.OneChar?) && CanonicalValue(k, v)
    ensures Parse(k, Print(k, v)) == Ok(Some(v)) && IsCell(Print(k, v))
  {
    match k
    case AnyText => SanitizeKeepsClean(v.text);
    case OneChar =>
    case HexText =>
      DigitsAreHex(v.text);
      SanitizeKeepsClean(v.text);
  }

  lemma DigitsAreHex(s: string)
    requires forall c <- s :: c in DIGITS
    ensures IsClean(s) && (forall c <- s :: IsHexDigit(c)) && Lower(s) == s
  {
    forall i | 0 <= i < |s| ensures !('A' <= s[i] <= 'F') && IsHexDigit(s[i]) && !Breaks(s[i]) {
      assert s[i] in DIGITS;
    }
  }

  lemma ShortNameCell(v: Value)
    requires CanonicalValue(ShortName, v)
    ensures Parse(ShortName, Print(ShortName, v)) == Ok(Some(v)) && IsCell(Print(ShortName, v))
  {
    hide Digits, Utf8Size, ParseShortName;
    SanitizeKeepsClean(v.text);
    ShortNameRoundTripsExactlyWithoutSpaces(v.text);
    DigitsAreWords10(Utf8Size(v.text) + 1);
  }

  lemma DigitsAreWords10(n: nat)
    ensures IsClean(Digits(n, 10))
  {
    hide Digits;
    DigitsAreDigits(n, 10);
  }

  lemma NumberRoundTrip(k: Kind, v: Value)
    requires (k.U64Number? || k.U32Number? || k.I64Number? || k.I32Number? || k.Identifier?) && CanonicalValue(k, v)
    ensures Parse(k, Print(k, v)) == Ok(Some(v)) && IsCell(Print(k, v))
  {
    hide Signed, ParseSigned, ParseUnsigned;
    if k.I64Number? || k.I32Number? || k.Identifier? { SignedRoundTrip(v.number); }
    NumbersAreClean(v.number);
    if v.number >= 0 { SignedOfNat(v.number); UnsignedRoundTrip(v.number, 10, U64); }
  }

  lemma SignedOfNat(n: nat)
    ensures Signed(n) == Digits(n, 10)
  {}

  /** Every canonical value reads back from its cell. */
  lemma CellRoundTrip(k: Kind, v: Value)
    requires CanonicalValue(k, v)
    ensures Parse(k, Print(k, v)) == Ok(Some(v)) && IsCell(Print(k, v))
  {
    hide CanonicalValue, PrintExtents, PrintAttributes, ParseExtents, ParseAttributes, Sanitize, PrintShortName;
    match k
    case AnyText => TextRoundTrip(k, v);
    case HexText => TextRoundTrip(k, v);
    case OneChar => TextRoundTrip(k, v);
    case ShortName => ShortNameCell(v);
    case U64Number => NumberRoundTrip(k, v);
    case U32Number => NumberRoundTrip(k, v);
    case I64Number => NumberRoundTrip(k, v);
    case I32Number => NumberRoundTrip(k, v);
    case Identifier => NumberRoundTrip(k, v);
    case EntryKind => TypeCell(v);
    case ExtentList => ExtentsCell(v);
    case AttributeList => AttributesCell(v);
  }

  lemma TypeCell(v: Value)
    requires CanonicalValue(EntryKind, v)
    ensures Parse(EntryKind, Print(EntryKind, v)) == Ok(Some(v)) && IsCell(Print(EntryKind, v))
  {}

  lemma ExtentsCell(v: Value)
    requires CanonicalValue(ExtentList, v)
    ensures Parse(ExtentList, Print(ExtentList, v)) == Ok(Some(v)) && IsCell(Print(ExtentList, v))
  {
    hide PrintExtents, ParseExtents;
    ExtentsRoundTrip(v.extents);
  }

  lemma AttributesCell(v: Value)
    requires CanonicalValue(AttributeList, v)
    ensures Parse(AttributeList, Print(AttributeList, v)) == Ok(Some(v)) && IsCell(Print(AttributeList, v))
  {
    hide PrintAttributes, ParseAttributes;
    AttributesRoundTrip(v.attributes);
  }
}
