/** The logical single-file catalog as a whole: permission groups, sources, subjects and the
    tree of entries (src/writer.rs, `ewf2_single_files_data_payload`; src/single_files.rs,
    `parse_single_files_data`). */
module Catalog {
  import opened Basics
  import opened Text
  import opened CatalogCells
  import opened CatalogRows

  datatype Group = Group(record: Record, permissions: seq<Record>)
  datatype Entry = Entry(record: Record, children: seq<Entry>)
  datatype Info = Info(dataSize: nat, root: Entry, sources: seq<Record>, subjects: seq<Record>, groups: seq<Group>)

  // ---------------------------------------------------------------- columns

  const ENTRY_TAGS: seq<string> := [
    "id", "p", "n", "ls", "lo", "po", "du", "src", "sub", "pm", "cid", "opr", "be", "ha", "sha",
    "snh", "cr", "wr", "ac", "mo", "dl", "ea"]

  const ENTRY_KINDS: map<string, Kind> := map[
    "id" := U64Number, "p" := EntryKind, "n" := AnyText, "ls" := U64Number, "lo" := I64Number, "po" := I64Number,
    "du" := I64Number, "src" := Identifier, "sub" := U32Number, "pm" := I32Number, "cid" := U32Number,
        "opr" := U32Number,
    "be" := ExtentList, "ha" := HexText, "sha" := HexText, "snh" := ShortName, "cr" := I64Number, "wr" := I64Number,
    "ac" := I64Number, "mo" := I64Number, "dl" := I64Number, "ea" := AttributeList, "mid" := HexText]

  const SOURCE_TAGS: seq<string> := [
    "id", "n", "ev", "loc", "gu", "pgu", "dt", "mfr", "mo", "se", "do", "ip", "ma", "tb", "lo",
    "po", "aq", "ah", "sh"]

  const SOURCE_KINDS: map<string, Kind> := map[
    "id" := Identifier, "n" := AnyText, "ev" := AnyText, "loc" := AnyText, "gu" := HexText, "pgu" := HexText,
        "dt" := OneChar,
    "mfr" := AnyText, "mo" := AnyText, "se" := AnyText, "do" := AnyText, "ip" := AnyText, "ma" := HexText,
        "tb" := U64Number,
    "lo" := I64Number, "po" := I64Number, "aq" := I64Number, "ah" := HexText, "sh" := HexText]

  const SUBJECT_TAGS: seq<string> := ["id", "n"]
  const SUBJECT_KINDS: map<string, Kind> := map["id" := U32Number, "n" := AnyText]

  const PERMISSION_TAGS: seq<string> := ["n", "pr", "s", "nta", "nti"]
  const PERMISSION_KINDS: map<string, Kind> := map[
    "n" := AnyText, "pr" := U32Number, "s" := AnyText, "nta" := U32Number, "nti" := U32Number]

  const ENTRY_SCHEMA := Schema(ENTRY_KINDS, map[], false, true)
  const SOURCE_SCHEMA := Schema(SOURCE_KINDS, map[], true, false)
  const SUBJECT_SCHEMA := Schema(SUBJECT_KINDS, map[], true, false)
  const PERMISSION_SCHEMA := Schema(PERMISSION_KINDS, map["pt" := "pr"], true, false)

  /** The GUID column is written only when some entry has one. */
  function EntryTags(guids: bool): seq<string> { if guids then ENTRY_TAGS + ["mid"] else ENTRY_TAGS }

  // ---------------------------------------------------------------- permission groups

  const GROUP_TYPE := NumberValue(10)

  /** A group without a type is written with the group type. */
  function GroupRecord(r: Record): Record { if "pr" in r then r else r["pr" := GROUP_TYPE] }

  function PrintGroups(groups: seq<Group>): seq<string> {
    if groups == [] then []
    else
      [PrintPair(0, |groups[0].permissions|),
       PrintRow(PERMISSION_SCHEMA, PERMISSION_TAGS, GroupRecord(groups[0].record))]
      + PrintRows(PERMISSION_SCHEMA, PERMISSION_TAGS, groups[0].permissions) + PrintGroups(groups[1..])
  }

  function PrintPermissions(groups: seq<Group>): seq<string> {
    PrintHeader("perm", |groups|, PERMISSION_SCHEMA, PERMISSION_TAGS, map["pr" := GROUP_TYPE]) + PrintGroups(groups)
        + [""]
  }

  predicate HasGroupType(r: Record) { "pr" in r && r["pr"] == GROUP_TYPE }

  function ParseGroups(lines: seq<string>, at: nat, types: seq<string>, count: nat): Result<(seq<Group>, nat)>
    decreases count
  {
    if count == 0 then Ok(([], at))
    else
      var countLine :- GetLine(lines, at);
      var children :- ParsePair(countLine);
      var rowLine :- GetLine(lines, at + 1);
      var record :- ParseRow(PERMISSION_SCHEMA, types, rowLine);
      if children.0 != 0 || !HasGroupType(record) then Err
      else
        var permissions :- ParseRows(lines, at + 2, PERMISSION_SCHEMA, types, children.1, None);
        var rest :- ParseGroups(lines, at + 2 + 2 * children.1, types, count - 1);
        Ok(([Group(record, permissions)] + rest.0, rest.1))
  }

  function ParsePermissions(lines: seq<string>, at: nat): Result<(seq<Group>, nat)> {
    var header :- ParseHeader(lines, at, "perm");
    var rootLine :- GetLine(lines, at + 4);
    var root :- ParseRow(PERMISSION_SCHEMA, header.0, rootLine);
    if !HasGroupType(root) then Err
    else
      var groups :- ParseGroups(lines, at + 5, header.0, header.1);
      var end :- GetLine(lines, groups.1);
      if end != "" then Err else Ok((groups.0, groups.1 + 1))
  }

  // ---------------------------------------------------------------- sources

  /** `SingleFileSourceIds`: where the first source with an identifier ends up, if any. */
  function Position(sources: seq<Record>, identifier: int, from: nat): Option<nat>
    requires from <= |sources|
    decreases |sources| - from
  {
    if from == |sources| then None
    else if "id" in sources[from] && sources[from]["id"] == NumberValue(identifier) then Some(from)
    else Position(sources, identifier, from + 1)
  }

  /** Sources are written numbered by their position. */
  function Renumbered(sources: seq<Record>): (r: seq<Record>)
    ensures |r| == |sources|
  {
    seq(|sources|, i requires 0 <= i < |sources| => sources[i]["id" := NumberValue(i)])
  }

  /** An entry's reference follows its source to the new number. */
  function Remapped(sources: seq<Record>, r: Record): Record {
    if "src" in r && r["src"].NumberValue? && r["src"].number > 0 && |sources| > 0 then
      var position := Position(sources, r["src"].number, 1);
      if position.Some? then r["src" := NumberValue(position.value)] else r
    else r
  }

  // ---------------------------------------------------------------- the tree of entries

  function PrintEntry(e: Entry, tags: seq<string>, sources: seq<Record>): (lines: seq<string>)
    ensures |lines| >= 2
    decreases e, |e.children| + 1
  {
    [PrintPair(26, |e.children|), PrintRow(ENTRY_SCHEMA, tags, Remapped(sources, e.record))]
        + PrintChildren(e, 0, tags, sources)
  }

  function PrintChildren(e: Entry, k: nat, tags: seq<string>, sources: seq<Record>): seq<string>
    requires k <= |e.children|
    decreases e, |e.children| - k
  {
    if k == |e.children| then []
    else PrintEntry(e.children[k], tags, sources) + PrintChildren(e, k + 1, tags, sources)
  }

  /** `parse_entry`: the entry whose lines start at `cursor`, and where they end. */
  function ParseEntry(lines: seq<string>, types: seq<string>, cursor: nat): (r: Result<(Entry, nat)>)
    ensures r.Ok? ==> cursor < r.value.1 <= |lines|
    decreases |lines| - cursor, 0
  {
    var countLine :- GetLine(lines, cursor);
    var count :- ParsePair(countLine);
    var rowLine :- GetLine(lines, cursor + 1);
    if count.0 != 0 && count.0 != 26 then Err
    else
      var record :- ParseRow(ENTRY_SCHEMA, types, rowLine);
      var children :- ParseChildren(lines, types, cursor + 2, count.1);
      Ok((Entry(record, children.0), children.1))
  }

  function ParseChildren(lines: seq<string>, types: seq<string>, cursor: nat,
                         count: nat): (r: Result<(seq<Entry>, nat)>)
    requires cursor <= |lines|
    ensures r.Ok? ==> cursor <= r.value.1 <= |lines|
    decreases |lines| - cursor, count + 1
  {
    if count == 0 then Ok(([], cursor))
    else
      var first :- ParseEntry(lines, types, cursor);
      var rest :- ParseChildren(lines, types, first.1, count - 1);
      Ok(([first.0] + rest.0, rest.1))
  }

  /** The parser with its moving cursor and its loop over the children. */
  method ReadEntry(lines: seq<string>, types: seq<string>, start: nat) returns (r: Result<Entry>, cursor: nat)
    ensures (if r.Ok? then Ok((r.value, cursor)) else Err) == ParseEntry(lines, types, start)
    decreases |lines| - start
  {
    hide ParsePair, ParseRow;
    cursor := start;
    var countLine := GetLine(lines, cursor);
    if countLine.Err? { return Err, cursor; }
    var count := ParsePair(countLine.value);
    cursor := cursor + 1;
    var rowLine := GetLine(lines, cursor);
    if count.Err? || rowLine.Err? || (count.value.0 != 0 && count.value.0 != 26) { return Err, cursor; }
    var record := ParseRow(ENTRY_SCHEMA, types, rowLine.value);
    if record.Err? { return Err, cursor; }
    cursor := cursor + 1;
    var children, n := [], count.value.1;
    ghost var all := ParseChildren(lines, types, cursor, n);
    assert all.Ok? ==> [] + all.value.0 == all.value.0;
    for i := 0 to n
      invariant start < cursor <= |lines|
      invariant var rest := ParseChildren(lines, types, cursor, n - i);
                all == if rest.Ok? then Ok((children + rest.value.0, rest.value.1)) else Err
    {
      var child, next := ReadEntry(lines, types, cursor);
      if child.Err? { return Err, next; }
      ghost var rest := ParseChildren(lines, types, next, n - i - 1);
      assert rest.Ok? ==> children + ([child.value] + rest.value.0) == children + [child.value] + rest.value.0;
      children, cursor := children + [child.value], next;
    }
    assert children + [] == children;
    return Ok(Entry(record.value, children)), cursor;
  }

  predicate HasGuid(e: Entry)
    decreases e
  {
    "mid" in e.record || exists k | 0 <= k < |e.children| :: HasGuid(e.children[k])
  }

  /** The furthest byte the stored extents of an entry reach, or its size; `None` on overflow. */
  function ExtentsEnd(extents: seq<Extent>, n: nat, start: nat): Option<nat>
    requires n <= |extents|
  {
    if n == 0 then Some(start)
    else
      var before, x := ExtentsEnd(extents, n - 1, start), extents[n - 1];
      if before.None? || x.sparse then before
      else if x.dataOffset + x.dataSize >= U64 then None
      else Some(Max(before.value, x.dataOffset + x.dataSize))
  }

  function OwnDataSize(r: Record): Option<nat> {
    var size := if "ls" in r && r["ls"].NumberValue? && r["ls"].number >= 0 then r["ls"].number else 0;
    if "be" in r && r["be"].ExtentsValue? then ExtentsEnd(r["be"].extents, |r["be"].extents|, size) else Some(size)
  }

  /** `single_file_entry_data_size` */
  function EntryDataSize(e: Entry): Option<nat>
    decreases e, |e.children| + 1
  {
    ChildrenDataSize(e, |e.children|)
  }

  function ChildrenDataSize(e: Entry, n: nat): Option<nat>
    requires n <= |e.children|
    decreases e, n
  {
    if n == 0 then OwnDataSize(e.record)
    else
      var before, child := ChildrenDataSize(e, n - 1), EntryDataSize(e.children[n - 1]);
      if before.None? || child.None? then None else Some(Max(before.value, child.value))
  }

  // ---------------------------------------------------------------- the whole catalog

  function RecordLines(dataSize: nat): seq<string> { ["rec", "tb", Digits(dataSize, 10), ""] }

  const DEFAULT_ROOT: Record := map["id" := NumberValue(0)]

  function EntryLines(info: Info): seq<string> {
    var tags := EntryTags(HasGuid(info.root));
    ["entry", PrintPair(0, 1), Join(tags, '\t')] + PrintEntry(info.root, tags, info.sources) + [""]
  }

  function SourceLines(sources: seq<Record>): seq<string> {
    PrintFlat("srce", SOURCE_SCHEMA, SOURCE_TAGS, Renumbered(if sources == [] then [DEFAULT_ROOT] else sources))
  }

  function SubjectLines(subjects: seq<Record>): seq<string> {
    PrintFlat("sub", SUBJECT_SCHEMA, SUBJECT_TAGS, if subjects == [] then [DEFAULT_ROOT] else subjects)
  }

  /** The lines of `ewf2_single_files_data_payload`. */
  function PrintLines(info: Info, dataSize: nat): seq<string> {
    ["5"] + RecordLines(dataSize) + PrintPermissions(info.groups) + SourceLines(info.sources)
        + SubjectLines(info.subjects)
    + EntryLines(info) + [""]
  }

  function PrintData(info: Info): Result<Bytes> {
    match EntryDataSize(info.root)
    case None => Err
    case Some(size) => Ok(UnitsToBytes([0xfeff] + Encode16(Join(PrintLines(info, Max(info.dataSize, size)), '\n'))))
  }

  /** `parse_record_category`: the total size under the first `tb` column, if it has a value. */
  function ParseRecordSize(types: seq<string>, values: seq<string>, i: nat): Result<Option<nat>>
    requires i <= |types|
    decreases |types| - i
  {
    if i == |types| then Ok(None)
    else if types[i] != "tb" then ParseRecordSize(types, values, i + 1)
    else if i >= |values| || values[i] == "" then Ok(None)
    else
      var v :- ParseUnsigned(values[i], 10, U64);
      Ok(Some(v))
  }

  function ParseRecordCategory(lines: seq<string>, at: nat): Result<Option<nat>> {
    var name :- GetLine(lines, at);
    var typeLine :- GetLine(lines, at + 1);
    var types :- ParseTypes(typeLine);
    var values :- GetLine(lines, at + 2);
    var end :- GetLine(lines, at + 3);
    if name != "rec" || end != "" then Err else ParseRecordSize(types, Split(values, '\t'), 0)
  }

  function ParseEntryCategory(lines: seq<string>, at: nat): Result<Entry> {
    var name :- GetLine(lines, at);
    var countLine :- GetLine(lines, at + 1);
    var count :- ParsePair(countLine);
    var typeLine :- GetLine(lines, at + 2);
    var types :- ParseTypes(typeLine);
    if name != "entry" || count.1 != 1 then Err
    else
      var root :- ParseEntry(lines, types, at + 3);
      var end :- GetLine(lines, root.1);
      if end != "" then Err else Ok(root.0)
  }

  /** `parse_single_files_data`, from its lines on. */
  function ParseLines(lines: seq<string>, requireSize: bool, length: nat): Result<Info> {
    var count :- GetLine(lines, 0);
    if count != "5" then Err
    else
      var size :- ParseRecordCategory(lines, 1);
      var groups :- ParsePermissions(lines, 5);
      var sources :- ParseFlat(lines, groups.1, "srce", SOURCE_SCHEMA, true);
      var subjects :- ParseFlat(lines, sources.1, "sub", SUBJECT_SCHEMA, false);
      if size.None? && requireSize then Err
      else
        var root :- ParseEntryCategory(lines, subjects.1);
        Ok(Info(if size.Some? then size.value else length, root, sources.0, subjects.0, groups.0))
  }

  /** `decode_utf16le_lines` when every line is valid UTF-16. */
  function DecodeLine(u: seq<Unit>): Result<string> {
    var units := if u != [] && u[|u| - 1] == 13 then u[..|u| - 1] else u;
    var line := Decode16(units);
    if line.None? then Err else Ok(line.value)
  }

  function DecodeLines(parts: seq<seq<Unit>>): Result<seq<string>> {
    if parts == [] then Ok([])
    else
      var line :- DecodeLine(parts[0]);
      var rest :- DecodeLines(parts[1..]);
      Ok([line] + rest)
  }

  function ParseData(data: Bytes, requireSize: bool): Result<Info> {
    if |data| % 2 != 0 then Err
    else
      var units := BytesToUnits(data);
      var text := if units != [] && units[0] == 0xfeff then units[1..] else units;
      var lines :- DecodeLines(Split(text, 10));
      ParseLines(lines, requireSize, |data|)
  }
}
