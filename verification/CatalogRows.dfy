/** Rows and flat categories of the logical-file catalog (src/writer.rs, the category printers;
    src/single_files.rs, the category parsers). */
module CatalogRows {
  import opened Basics
  import opened Text
  import opened CatalogCells

  /** A row: the fields that have a value, by tag. */
  type Record = map<string, Value>

  /** The kinds of the fields, other tags for them, whether rows must have exactly the announced
      number of cells, and whether an empty type cell means a file. */
  datatype Schema = Schema(kinds: map<string, Kind>, aliases: map<string, string>, exact: bool, typed: bool)

  function Field(schema: Schema, tag: string): string {
    if tag in schema.aliases then schema.aliases[tag] else tag
  }

  // ---------------------------------------------------------------- rows

  function CellOf(schema: Schema, tag: string, r: Record): string {
    if tag in r && tag in schema.kinds then Print(schema.kinds[tag], r[tag]) else ""
  }

  function Cells(schema: Schema, tags: seq<string>, r: Record): (cells: seq<string>)
    ensures |cells| == |tags| && forall i | 0 <= i < |cells| :: cells[i] == CellOf(schema, tags[i], r)
  {
    seq(|tags|, i requires 0 <= i < |tags| => CellOf(schema, tags[i], r))
  }

  function PrintRow(schema: Schema, tags: seq<string>, r: Record): string { Join(Cells(schema, tags, r), '\t') }

  /** Applies one typed cell to a row. */
  function Apply(schema: Schema, r: Record, tag: string, s: string): Result<Record> {
    var field := Field(schema, tag);
    if s == "" then Ok(if schema.typed && tag == "p" then r["p" := TypeValue(File)] else r)
    else if field !in schema.kinds then Ok(r)
    else
      var v :- Parse(schema.kinds[field], s);
      Ok(if v.Some? then r[field := v.value] else r - {field})
  }

  /** The row after the first `n` cells. */
  function ApplyTo(schema: Schema, tags: seq<string>, values: seq<string>, n: nat): Result<Record>
    requires n <= |tags| == |values|
  {
    if n == 0 then Ok(map[])
    else
      var before :- ApplyTo(schema, tags, values, n - 1);
      Apply(schema, before, tags[n - 1], values[n - 1])
  }

  /** Cuts or pads the cells to the announced number. */
  function Fit(values: seq<string>, n: nat): (r: seq<string>)
    ensures |r| == n
  {
    if |values| >= n then values[..n] else values + seq(n - |values|, _ => "")
  }

  function ParseRow(schema: Schema, tags: seq<string>, row: string): Result<Record> {
    var values := Split(row, '\t');
    if schema.exact && |values| != |tags| then Err else ApplyTo(schema, tags, Fit(values, |tags|), |tags|)
  }

  /** Tags a row may be printed under so that the schema's parser understands it. */
  predicate PrintsFor(tags: seq<string>, schema: Schema) {
    && tags != []
    && forall t <- tags :: IsTag(t, schema)
  }

  predicate IsTag(t: string, schema: Schema) {
    t != "" && IsClean(t) && t !in schema.aliases && t in schema.kinds
  }

  /** Every field has a tag among those printed and a value its kind can hold; a typed row has
      its type. */
  predicate CanonicalRecord(tags: seq<string>, schema: Schema, r: Record) {
    && (forall t <- r :: t in tags && t in schema.kinds && CanonicalValue(schema.kinds[t], r[t]))
    && (schema.typed ==> "p" in r)
  }

  function Restricted(tags: seq<string>, r: Record, n: nat): Record
    requires n <= |tags|
  {
    map t | t in r && t in tags[..n] :: r[t]
  }

  lemma CellIsApplied(tags: seq<string>, schema: Schema, r: Record, n: nat)
    requires PrintsFor(tags, schema) && CanonicalRecord(tags, schema, r) && n < |tags|
    ensures Apply(schema, Restricted(tags, r, n), tags[n], CellOf(schema, tags[n], r)) == Ok(Restricted(tags, r, n + 1))
    ensures IsClean(CellOf(schema, tags[n], r))
  {
    hide CanonicalValue, Print, Parse;
    var t := tags[n];
    assert IsTag(t, schema);
    assert tags[..n + 1] == tags[..n] + [t];
    if t in r {
      CellRoundTrip(schema.kinds[t], r[t]);
      assert Restricted(tags, r, n)[t := r[t]] == Restricted(tags, r, n + 1);
    } else {
      assert Restricted(tags, r, n) == Restricted(tags, r, n + 1);
    }
  }

  lemma {:induction false} CellsAreApplied(tags: seq<string>, schema: Schema, r: Record, n: nat)
    requires PrintsFor(tags, schema) && CanonicalRecord(tags, schema, r) && n <= |tags|
    ensures ApplyTo(schema, tags, Cells(schema, tags, r), n) == Ok(Restricted(tags, r, n))
    ensures forall i | 0 <= i < n :: IsClean(Cells(schema, tags, r)[i])
  {
    hide PrintsFor, CanonicalRecord, Apply, CellOf, IsClean;
    if n == 0 {
      assert Restricted(tags, r, 0) == map[];
    } else {
      CellsAreApplied(tags, schema, r, n - 1);
      CellIsApplied(tags, schema, r, n - 1);
    }
  }

  lemma AllRestricted(tags: seq<string>, schema: Schema, r: Record)
    requires CanonicalRecord(tags, schema, r)
    ensures Restricted(tags, r, |tags|) == r
  {
    hide CanonicalValue;
    assert tags[..|tags|] == tags;
  }

  /** A printed row parses to the same row. */
  lemma RowRoundTrip(tags: seq<string>, schema: Schema, r: Record)
    requires PrintsFor(tags, schema) && CanonicalRecord(tags, schema, r)
    ensures ParseRow(schema, tags, PrintRow(schema, tags, r)) == Ok(r)
    ensures NoLineBreak(PrintRow(schema, tags, r))
  {
    hide CanonicalRecord, ApplyTo, CellOf, Restricted, IsClean, IsTag;
    CellsAreApplied(tags, schema, r, |tags|);
    AllRestricted(tags, schema, r);
    CellsHaveNoBreaks(Cells(schema, tags, r));
    SplitOfJoin(Cells(schema, tags, r), '\t');
    assert Cells(schema, tags, r)[..|tags|] == Cells(schema, tags, r);
  }

  predicate NoLineBreak(s: string) { '\n' !in s && '\r' !in s }

  lemma CellsHaveNoBreaks(cells: seq<string>)
    requires cells != [] && forall i | 0 <= i < |cells| :: IsClean(cells[i])
    ensures forall c <- cells :: '\t' !in c
    ensures NoLineBreak(Join(cells, '\t'))
  {
    forall c <- cells ensures '\t' !in c && '\n' !in c && '\r' !in c {
      var i :| 0 <= i < |cells| && cells[i] == c;
    }
    JoinHasOnly(cells, '\t', '\n');
    JoinHasOnly(cells, '\t', '\r');
  }

  // ---------------------------------------------------------------- lines

  /** The lines have `part` at `at`. */
  ghost predicate LinesAt(lines: seq<string>, at: nat, part: seq<string>) {
    at + |part| <= |lines| && lines[at..at + |part|] == part
  }

  lemma LineAt(lines: seq<string>, at: nat, part: seq<string>, k: nat)
    requires LinesAt(lines, at, part) && k < |part|
    ensures at + k < |lines| && lines[at + k] == part[k]
  {
    assert lines[at..at + |part|][k] == lines[at + k];
  }

  lemma SplitLines(lines: seq<string>, at: nat, a: seq<string>, b: seq<string>)
    requires LinesAt(lines, at, a + b)
    ensures LinesAt(lines, at, a) && LinesAt(lines, at + |a|, b)
  {
    var whole := lines[at..at + |a + b|];
    assert whole[..|a|] == a && whole[|a|..] == b;
    assert lines[at..at + |a|] == whole[..|a|];
    assert lines[at + |a|..at + |a| + |b|] == whole[|a|..];
  }

  function GetLine(lines: seq<string>, at: nat): Result<string> {
    if at < |lines| then Ok(lines[at]) else Err
  }

  function PrintPair(a: nat, b: nat): string { Digits(a, 10) + "\t" + Digits(b, 10) }

  function ParsePair(s: string): Result<(nat, nat)> {
    var parts := Split(s, '\t');
    if |parts| != 2 then Err
    else
      var a :- ParseUnsigned(parts[0], 10, U64);
      var b :- ParseUnsigned(parts[1], 10, U64);
      Ok((a, b))
  }

  lemma PairRoundTrip(a: nat, b: nat)
    requires a < U64 && b < U64
    ensures ParsePair(PrintPair(a, b)) == Ok((a, b)) && NoLineBreak(PrintPair(a, b))
  {
    hide Digits, ParseUnsigned, Split, NoLineBreak;
    UnsignedRoundTrip(a, 10, U64);
    UnsignedRoundTrip(b, 10, U64);
    DigitsHaveNoBreaks(a);
    DigitsHaveNoBreaks(b);
    PairSplits(Digits(a, 10), Digits(b, 10));
    assert PrintPair(a, b) == Digits(a, 10) + ['\t'] + Digits(b, 10);
  }

  lemma DigitsHaveNoBreaks(n: nat)
    ensures IsClean(Digits(n, 10))
  {
    hide Digits;
    DigitsAreDigits(n, 10);
  }

  lemma PairSplits(a: string, b: string)
    requires IsClean(a) && IsClean(b)
    ensures Split(a + ['\t'] + b, '\t') == [a, b] && NoLineBreak(a + ['\t'] + b)
  {
    hide Split;
    assert '\t' !in a && '\t' !in b;
    SplitOfPrefix(a, '\t', b);
    SplitOfPrefix(b, '\t', "");
  }

  /** Type lines hold no empty tag. */
  function ParseTypes(s: string): Result<seq<string>> {
    var types := Split(s, '\t');
    if exists t <- types :: t == "" then Err else Ok(types)
  }

  lemma TypesRoundTrip(tags: seq<string>, schema: Schema)
    requires PrintsFor(tags, schema)
    ensures ParseTypes(Join(tags, '\t')) == Ok(tags) && NoLineBreak(Join(tags, '\t'))
  {
    assert forall i | 0 <= i < |tags| :: IsTag(tags[i], schema);
    CellsHaveNoBreaks(tags);
    SplitOfJoin(tags, '\t');
  }

  // ---------------------------------------------------------------- flat categories

  /** A count line, the types, the count again and the root row; then each row after a line that
      says it has no children; then an empty line. */
  function PrintHeader(name: string, count: nat, schema: Schema, tags: seq<string>, root: Record): (lines: seq<string>)
    ensures |lines| == 5
  {
    [name, PrintPair(count, 1), Join(tags, '\t'), PrintPair(0, count), PrintRow(schema, tags, root)]
  }

  function PrintRows(schema: Schema, tags: seq<string>, rows: seq<Record>): (lines: seq<string>)
    ensures |lines| == 2 * |rows|
  {
    if rows == [] then [] else [PrintPair(0, 0), PrintRow(schema, tags, rows[0])] + PrintRows(schema, tags, rows[1..])
  }

  function PrintFlat(name: string, schema: Schema, tags: seq<string>, rows: seq<Record>): seq<string>
    requires rows != []
  {
    PrintHeader(name, |rows| - 1, schema, tags, rows[0]) + PrintRows(schema, tags, rows[1..]) + [""]
  }

  /** `parse_category_header`: the types, the entry count, and where the root row is. */
  function ParseHeader(lines: seq<string>, at: nat, name: string): Result<(seq<string>, nat)> {
    var first :- GetLine(lines, at);
    var countLine :- GetLine(lines, at + 1);
    var count :- ParsePair(countLine);
    var typeLine :- GetLine(lines, at + 2);
    var types :- ParseTypes(typeLine);
    var copyLine :- GetLine(lines, at + 3);
    var copy :- ParsePair(copyLine);
    if first != name || count.1 != 1 || copy.0 != 0 || copy.1 != count.0 then Err else Ok((types, count.0))
  }

  /** Rows without children, `index` being the number of the first; numbered rows carry it. */
  function ParseRows(lines: seq<string>, at: nat, schema: Schema, types: seq<string>, count: nat,
                     numbered: Option<nat>): Result<seq<Record>>
    decreases count
  {
    if count == 0 then Ok([])
    else
      var countLine :- GetLine(lines, at);
      var children :- ParsePair(countLine);
      var rowLine :- GetLine(lines, at + 1);
      var row :- ParseRow(schema, types, rowLine);
      if children != (0, 0) then Err
      else if numbered.Some? && (numbered.value >= I31 || "id" !in row
                                 || row["id"] != NumberValue(numbered.value)) then Err
      else
        var rest :- ParseRows(lines, at + 2, schema, types, count - 1,
                              if numbered.Some? then Some(numbered.value + 1) else None);
        Ok([row] + rest)
  }

  /** A category: its rows, the root first, and where the next one starts. */
  function ParseFlat(lines: seq<string>, at: nat, name: string, schema: Schema,
                     numbered: bool): Result<(seq<Record>, nat)> {
    var header :- ParseHeader(lines, at, name);
    var rootLine :- GetLine(lines, at + 4);
    var root :- ParseRow(schema, header.0, rootLine);
    var rows :- ParseRows(lines, at + 5, schema, header.0, header.1, if numbered then Some(1) else None);
    var end :- GetLine(lines, at + 5 + 2 * header.1);
    if end != "" then Err else Ok(([root] + rows, at + 6 + 2 * header.1))
  }

  /** The loop over a flat category's rows. */
  method ReadRows(lines: seq<string>, start: nat, schema: Schema, types: seq<string>, count: nat,
                  numbered: bool) returns (r: Result<seq<Record>>)
    ensures r == ParseRows(lines, start, schema, types, count, if numbered then Some(1) else None)
  {
    hide ParsePair, ParseRow;
    var rows, at := [], start;
    ghost var all := ParseRows(lines, start, schema, types, count, if numbered then Some(1) else None);
    assert all.Ok? ==> [] + all.value == all.value;
    for i := 0 to count
      invariant at == start + 2 * i
      invariant var rest := ParseRows(lines, at, schema, types, count - i, if numbered then Some(i + 1) else None);
                all == if rest.Ok? then Ok(rows + rest.value) else Err
    {
      var countLine := GetLine(lines, at);
      if countLine.Err? { return Err; }
      var children := ParsePair(countLine.value);
      if children.Err? { return Err; }
      var rowLine := GetLine(lines, at + 1);
      if rowLine.Err? { return Err; }
      var row := ParseRow(schema, types, rowLine.value);
      if row.Err? || children.value != (0, 0) { return Err; }
      if numbered && (i + 1 >= I31 || "id" !in row.value || row.value["id"] != NumberValue(i + 1)) { return Err; }
      ghost var rest := ParseRows(lines, at + 2, schema, types, count - i - 1, if numbered then Some(i + 2) else None);
      assert rest.Ok? ==> rows + ([row.value] + rest.value) == rows + [row.value] + rest.value;
      rows, at := rows + [row.value], at + 2;
    }
    assert rows + [] == rows;
    return Ok(rows);
  }

  predicate IsNumbered(rows: seq<Record>, first: nat) {
    forall i | 0 <= i < |rows| :: first + i < I31 && "id" in rows[i] && rows[i]["id"] == NumberValue(first + i)
  }

  lemma NumberedTail(rows: seq<Record>, first: nat)
    requires IsNumbered(rows, first) && rows != []
    ensures first < I31 && "id" in rows[0] && rows[0]["id"] == NumberValue(first)
    ensures IsNumbered(rows[1..], first + 1)
  {
    assert "id" in rows[0] && rows[0]["id"] == NumberValue(first + 0);
    forall i | 0 <= i < |rows[1..]|
      ensures first + 1 + i < I31 && "id" in rows[1..][i] && rows[1..][i]["id"] == NumberValue(first + 1 + i)
    {
      assert rows[1..][i] == rows[i + 1];
      assert rows[i + 1]["id"] == NumberValue(first + (i + 1));
    }
  }

  lemma HeaderRoundTrip(lines: seq<string>, at: nat, name: string, count: nat, tags: seq<string>, schema: Schema,
                        root: Record)
    requires PrintsFor(tags, schema) && count < U64
    requires LinesAt(lines, at, PrintHeader(name, count, schema, tags, root))
    ensures ParseHeader(lines, at, name) == Ok((tags, count))
    ensures GetLine(lines, at + 4) == Ok(PrintRow(schema, tags, root))
  {
    hide PrintPair, ParsePair, ParseTypes, PrintRow;
    var part := PrintHeader(name, count, schema, tags, root);
    LineAt(lines, at, part, 0);
    LineAt(lines, at, part, 1);
    LineAt(lines, at, part, 2);
    LineAt(lines, at, part, 3);
    LineAt(lines, at, part, 4);
    PairRoundTrip(count, 1);
    PairRoundTrip(0, count);
    TypesRoundTrip(tags, schema);
  }

  lemma {:induction false} RowsRoundTrip(lines: seq<string>, at: nat, tags: seq<string>, schema: Schema,
                                         rows: seq<Record>, numbered: Option<nat>)
    requires PrintsFor(tags, schema) && forall r <- rows :: CanonicalRecord(tags, schema, r)
    requires numbered.Some? ==> IsNumbered(rows, numbered.value)
    requires LinesAt(lines, at, PrintRows(schema, tags, rows))
    ensures ParseRows(lines, at, schema, tags, |rows|, numbered) == Ok(rows)
    decreases |rows|
  {
    hide PrintPair, ParsePair, PrintRow, ParseRow, CanonicalRecord, PrintsFor, IsNumbered;
    if rows != [] {
      var part := [PrintPair(0, 0), PrintRow(schema, tags, rows[0])];
      SplitLines(lines, at, part, PrintRows(schema, tags, rows[1..]));
      LineAt(lines, at, part, 0);
      LineAt(lines, at, part, 1);
      PairRoundTrip(0, 0);
      assert rows[0] in rows && forall r <- rows[1..] :: r in rows;
      RowRoundTrip(tags, schema, rows[0]);
      if numbered.Some? { NumberedTail(rows, numbered.value); }
      RowsRoundTrip(lines, at + 2, tags, schema, rows[1..], if numbered.Some? then Some(numbered.value + 1) else None);
      assert [rows[0]] + rows[1..] == rows;
    }
  }

  /** A printed flat category parses to its rows and ends where it was printed to end. */
  lemma FlatRoundTrip(lines: seq<string>, at: nat, name: string, tags: seq<string>, schema: Schema, rows: seq<Record>,
                      numbered: bool)
    requires PrintsFor(tags, schema) && rows != [] && |rows| < U64
            && forall r <- rows :: CanonicalRecord(tags, schema, r)
    requires numbered ==> IsNumbered(rows[1..], 1)
    requires LinesAt(lines, at, PrintFlat(name, schema, tags, rows))
    ensures ParseFlat(lines, at, name, schema, numbered) == Ok((rows, at + |PrintFlat(name, schema, tags, rows)|))
  {
    hide PrintHeader, PrintRows, ParseHeader, ParseRows, ParseRow, PrintRow, CanonicalRecord, PrintsFor, IsNumbered;
    var header, body := PrintHeader(name, |rows| - 1, schema, tags, rows[0]), PrintRows(schema, tags, rows[1..]);
    SplitLines(lines, at, header + body, [""]);
    SplitLines(lines, at, header, body);
    LineAt(lines, at + |header + body|, [""], 0);
    HeaderRoundTrip(lines, at, name, |rows| - 1, tags, schema, rows[0]);
    assert rows[0] in rows && forall r <- rows[1..] :: r in rows;
    RowRoundTrip(tags, schema, rows[0]);
    RowsRoundTrip(lines, at + 5, tags, schema, rows[1..], if numbered then Some(1) else None);
    assert [rows[0]] + rows[1..] == rows;
  }

  // ---------------------------------------------------------------- no line breaks in printed lines

  ghost predicate AllClean(lines: seq<string>) { forall l <- lines :: NoLineBreak(l) }

  lemma AllCleanJoins(a: seq<string>, b: seq<string>)
    requires AllClean(a) && AllClean(b)
    ensures AllClean(a + b)
  {}

  lemma HeaderIsClean(name: string, count: nat, tags: seq<string>, schema: Schema, root: Record)
    requires PrintsFor(tags, schema) && count < U64 && NoLineBreak(name) && CanonicalRecord(tags, schema, root)
    ensures AllClean(PrintHeader(name, count, schema, tags, root))
  {
    hide PrintPair, PrintRow, CanonicalRecord, PrintsFor, NoLineBreak;
    PairRoundTrip(count, 1);
    PairRoundTrip(0, count);
    TypesRoundTrip(tags, schema);
    RowRoundTrip(tags, schema, root);
  }

  lemma {:induction false} RowsAreClean(tags: seq<string>, schema: Schema, rows: seq<Record>)
    requires PrintsFor(tags, schema) && forall r <- rows :: CanonicalRecord(tags, schema, r)
    ensures AllClean(PrintRows(schema, tags, rows))
  {
    hide PrintPair, PrintRow, CanonicalRecord, PrintsFor, NoLineBreak;
    if rows != [] {
      assert rows[0] in rows && forall r <- rows[1..] :: r in rows;
      RowsAreClean(tags, schema, rows[1..]);
      RowRoundTrip(tags, schema, rows[0]);
      PairRoundTrip(0, 0);
      AllCleanJoins([PrintPair(0, 0), PrintRow(schema, tags, rows[0])], PrintRows(schema, tags, rows[1..]));
    }
  }

  lemma FlatIsClean(name: string, tags: seq<string>, schema: Schema, rows: seq<Record>)
    requires PrintsFor(tags, schema) && rows != [] && |rows| < U64 && NoLineBreak(name)
            && forall r <- rows :: CanonicalRecord(tags, schema, r)
    ensures AllClean(PrintFlat(name, schema, tags, rows))
  {
    hide PrintHeader, PrintRows, CanonicalRecord, PrintsFor;
    assert rows[0] in rows && forall r <- rows[1..] :: r in rows;
    HeaderIsClean(name, |rows| - 1, tags, schema, rows[0]);
    RowsAreClean(tags, schema, rows[1..]);
    AllCleanJoins(PrintHeader(name, |rows| - 1, schema, tags, rows[0]), PrintRows(schema, tags, rows[1..]));
    assert AllClean([""]);
    AllCleanJoins(PrintHeader(name, |rows| - 1, schema, tags, rows[0]) + PrintRows(schema, tags, rows[1..]), [""]);
  }
}
