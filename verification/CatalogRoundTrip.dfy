/** Parsing a printed catalog gives back the same catalog. */
module CatalogRoundTrip {
  import opened Basics
  import opened Text
  import opened CatalogCells
  import opened CatalogRows
  import opened Catalog

  // ---------------------------------------------------------------- the printed tags

  predicate IsLowerWord(t: string) { t != "" && forall i | 0 <= i < |t| :: 'a' <= t[i] <= 'z' }

  lemma LowerWordIsTag(t: string, schema: Schema)
    requires IsLowerWord(t) && t !in schema.aliases && t in schema.kinds
    ensures IsTag(t, schema)
  {}

  lemma EntryTagsPrint(guids: bool)
    ensures PrintsFor(EntryTags(guids), ENTRY_SCHEMA)
  {
    forall t <- ENTRY_TAGS + ["mid"] ensures IsTag(t, ENTRY_SCHEMA) {
      LowerWordIsTag(t, ENTRY_SCHEMA);
    }
  }

  lemma SourceTagsPrint()
    ensures PrintsFor(SOURCE_TAGS, SOURCE_SCHEMA)
  {
    forall t <- SOURCE_TAGS ensures IsTag(t, SOURCE_SCHEMA) {
      LowerWordIsTag(t, SOURCE_SCHEMA);
    }
  }

  lemma SubjectTagsPrint()
    ensures PrintsFor(SUBJECT_TAGS, SUBJECT_SCHEMA)
  {}

  lemma PermissionTagsPrint()
    ensures PrintsFor(PERMISSION_TAGS, PERMISSION_SCHEMA)
  {
    forall t <- PERMISSION_TAGS ensures IsTag(t, PERMISSION_SCHEMA) {
      assert t != "pt" by { assert t[0] == 'p' ==> t[1] == 'r' || |t| == 1; }
      LowerWordIsTag(t, PERMISSION_SCHEMA);
    }
  }

  // ---------------------------------------------------------------- permission groups

  predicate CanonicalGroup(g: Group) {
    && CanonicalRecord(PERMISSION_TAGS, PERMISSION_SCHEMA, g.record) && HasGroupType(g.record)
    && |g.permissions| < U64
    && forall r <- g.permissions :: CanonicalRecord(PERMISSION_TAGS, PERMISSION_SCHEMA, r)
  }

  predicate CanonicalGroups(groups: seq<Group>) {
    |groups| < U64 && forall g <- groups :: CanonicalGroup(g)
  }

  function GroupLines(g: Group): seq<string> {
    [PrintPair(0, |g.permissions|), PrintRow(PERMISSION_SCHEMA, PERMISSION_TAGS, GroupRecord(g.record))]
    + PrintRows(PERMISSION_SCHEMA, PERMISSION_TAGS, g.permissions)
  }

  lemma GroupIsParsed(lines: seq<string>, at: nat, g: Group)
    requires CanonicalGroup(g) && LinesAt(lines, at, GroupLines(g))
    ensures GetLine(lines, at).Ok? && ParsePair(GetLine(lines, at).value) == Ok((0, |g.permissions|))
    ensures GetLine(lines, at + 1).Ok?
            && ParseRow(PERMISSION_SCHEMA, PERMISSION_TAGS, GetLine(lines, at + 1).value) == Ok(g.record)
    ensures ParseRows(lines, at + 2, PERMISSION_SCHEMA, PERMISSION_TAGS, |g.permissions|, None) == Ok(g.permissions)
    ensures AllClean(GroupLines(g))
  {
    hide PrintPair, ParsePair, PrintRow, ParseRow, PrintRows, ParseRows, PrintsFor, CanonicalRecord, NoLineBreak;
    var head := [PrintPair(0, |g.permissions|), PrintRow(PERMISSION_SCHEMA, PERMISSION_TAGS, GroupRecord(g.record))];
    PermissionTagsPrint();
    SplitLines(lines, at, head, PrintRows(PERMISSION_SCHEMA, PERMISSION_TAGS, g.permissions));
    LineAt(lines, at, head, 0);
    LineAt(lines, at, head, 1);
    PairRoundTrip(0, |g.permissions|);
    RowRoundTrip(PERMISSION_TAGS, PERMISSION_SCHEMA, g.record);
    RowsRoundTrip(lines, at + 2, PERMISSION_TAGS, PERMISSION_SCHEMA, g.permissions, None);
    RowsAreClean(PERMISSION_TAGS, PERMISSION_SCHEMA, g.permissions);
    AllCleanJoins(head, PrintRows(PERMISSION_SCHEMA, PERMISSION_TAGS, g.permissions));
  }

  lemma {:induction false} GroupsAreParsed(lines: seq<string>, at: nat, groups: seq<Group>)
    requires (forall g <- groups :: CanonicalGroup(g)) && LinesAt(lines, at, PrintGroups(groups))
    ensures ParseGroups(lines, at, PERMISSION_TAGS, |groups|) == Ok((groups, at + |PrintGroups(groups)|))
    ensures AllClean(PrintGroups(groups))
    decreases |groups|
  {
    hide *;
    if groups == [] {
      NoGroups(lines, at);
    } else {
      var g := groups[0];
      assert g in groups && forall x <- groups[1..] :: x in groups;
      GroupsAreLines(groups);
      SplitLines(lines, at, GroupLines(g), PrintGroups(groups[1..]));
      GroupIsParsed(lines, at, g);
      GroupIsTyped(g);
      GroupsAreParsed(lines, at + |GroupLines(g)|, groups[1..]);
      AllCleanJoins(GroupLines(g), PrintGroups(groups[1..]));
      GroupsStep(lines, at, groups, at + |PrintGroups(groups)|);
    }
  }

  lemma NoGroups(lines: seq<string>, at: nat)
    ensures PrintGroups([]) == [] && ParseGroups(lines, at, PERMISSION_TAGS, 0) == Ok(([], at)) && AllClean([])
  {}

  lemma GroupsAreLines(groups: seq<Group>)
    requires groups != []
    ensures PrintGroups(groups) == GroupLines(groups[0]) + PrintGroups(groups[1..])
  {}

  lemma GroupsStep(lines: seq<string>, at: nat, groups: seq<Group>, end: nat)
    requires groups != [] && HasGroupType(groups[0].record)
    requires var g := groups[0];
             && GetLine(lines, at).Ok? && ParsePair(GetLine(lines, at).value) == Ok((0, |g.permissions|))
             && GetLine(lines, at + 1).Ok?
                 && ParseRow(PERMISSION_SCHEMA, PERMISSION_TAGS, GetLine(lines, at + 1).value) == Ok(g.record)
             && ParseRows(lines, at + 2, PERMISSION_SCHEMA, PERMISSION_TAGS, |g.permissions|, None) == Ok(g.permissions)
             && ParseGroups(lines, at + 2 + 2 * |g.permissions|, PERMISSION_TAGS, |groups| - 1)
                 == Ok((groups[1..], end))
    ensures ParseGroups(lines, at, PERMISSION_TAGS, |groups|) == Ok((groups, end))
  {
    hide ParsePair, ParseRow, ParseRows, HasGroupType, GetLine;
    assert [Group(groups[0].record, groups[0].permissions)] + groups[1..] == groups;
  }

  lemma GroupIsTyped(g: Group)
    requires CanonicalGroup(g)
    ensures HasGroupType(g.record) && |GroupLines(g)| == 2 + 2 * |g.permissions|
  {}

  lemma RootPermissionIsCanonical()
    ensures CanonicalRecord(PERMISSION_TAGS, PERMISSION_SCHEMA, map["pr" := GROUP_TYPE])
            && HasGroupType(map["pr" := GROUP_TYPE])
  {
    assert PERMISSION_TAGS[1] == "pr";
  }

  lemma PermissionsRoundTrip(lines: seq<string>, at: nat, groups: seq<Group>)
    requires CanonicalGroups(groups) && LinesAt(lines, at, PrintPermissions(groups))
    ensures ParsePermissions(lines, at) == Ok((groups, at + |PrintPermissions(groups)|))
    ensures AllClean(PrintPermissions(groups))
  {
    hide PrintHeader, ParseHeader, PrintGroups, ParseGroups, CanonicalGroup, ParseRow, PrintRow, PrintsFor,
        HasGroupType, CanonicalRecord;
    var root: Record := map["pr" := GROUP_TYPE];
    var header := PrintHeader("perm", |groups|, PERMISSION_SCHEMA, PERMISSION_TAGS, root);
    PermissionTagsPrint();
    RootPermissionIsCanonical();
    SplitLines(lines, at, header + PrintGroups(groups), [""]);
    SplitLines(lines, at, header, PrintGroups(groups));
    LineAt(lines, at + |header + PrintGroups(groups)|, [""], 0);
    HeaderRoundTrip(lines, at, "perm", |groups|, PERMISSION_TAGS, PERMISSION_SCHEMA, root);
    RowRoundTrip(PERMISSION_TAGS, PERMISSION_SCHEMA, root);
    GroupsAreParsed(lines, at + 5, groups);
    HeaderIsClean("perm", |groups|, PERMISSION_TAGS, PERMISSION_SCHEMA, root);
    AllCleanJoins(header, PrintGroups(groups));
    AllCleanJoins(header + PrintGroups(groups), [""]);
  }

  // ---------------------------------------------------------------- sources

  predicate CanonicalSources(sources: seq<Record>) {
    && sources != [] && |sources| < I31 && IsNumbered(sources, 0)
    && forall r <- sources :: CanonicalRecord(SOURCE_TAGS, SOURCE_SCHEMA, r)
  }

  /** The entry's new number names the first source that had its old one. */
  lemma {:induction false} PositionIsFirst(sources: seq<Record>, identifier: int, from: nat)
    requires from <= |sources|
    ensures var p := Position(sources, identifier, from);
            if p.Some? then
              && from <= p.value < |sources| && "id" in sources[p.value]
                  && sources[p.value]["id"] == NumberValue(identifier)
              && forall k | from <= k < p.value :: !("id" in sources[k] && sources[k]["id"] == NumberValue(identifier))
            else forall k | from <= k < |sources| ::
                !("id" in sources[k] && sources[k]["id"] == NumberValue(identifier))
    decreases |sources| - from
  {
    if from < |sources| && !("id" in sources[from] && sources[from]["id"] == NumberValue(identifier)) {
      PositionIsFirst(sources, identifier, from + 1);
    }
  }

  /** Renumbering keeps references: the source an entry named is the one it names afterwards. */
  lemma RenumberingKeepsReferences(sources: seq<Record>, r: Record, k: nat)
    requires 0 < k < |sources| && "id" in sources[k] && sources[k]["id"].NumberValue? && sources[k]["id"].number > 0
    requires forall j | 0 < j < k :: !("id" in sources[j] && sources[j]["id"] == sources[k]["id"])
    requires "src" in r && r["src"] == sources[k]["id"]
    ensures Remapped(sources, r)["src"] == Renumbered(sources)[k]["id"]
    ensures Remapped(sources, r) == r["src" := NumberValue(k)]
    ensures Renumbered(sources)[k] - {"id"} == sources[k] - {"id"}
  {
    PositionIsFirst(sources, r["src"].number, 1);
  }

  /** On sources already numbered by position nothing changes. */
  lemma NumberedStay(sources: seq<Record>, r: Record)
    requires IsNumbered(sources, 0) && sources != []
    ensures Renumbered(sources) == sources
    ensures Remapped(sources, r) == r
  {
    forall i | 0 <= i < |sources| ensures sources[i]["id" := NumberValue(i)] == sources[i] {}
    if "src" in r && r["src"].NumberValue? && r["src"].number > 0 {
      PositionIsFirst(sources, r["src"].number, 1);
      assert forall k | 0 <= k < |sources| :: sources[k]["id"] == NumberValue(k);
    }
  }

  // ---------------------------------------------------------------- the tree

  predicate CanonicalEntry(e: Entry, tags: seq<string>)
    decreases e
  {
    && CanonicalRecord(tags, ENTRY_SCHEMA, e.record)
    && |e.children| < U64
    && forall k | 0 <= k < |e.children| :: CanonicalEntry(e.children[k], tags)
  }

  /** A printed entry, whatever its depth, parses to itself, and the cursor stops right after it. */
  lemma {:induction false} EntryRoundTrip(lines: seq<string>, at: nat, e: Entry, tags: seq<string>,
                                          sources: seq<Record>)
    requires PrintsFor(tags, ENTRY_SCHEMA) && CanonicalEntry(e, tags) && IsNumbered(sources, 0) && sources != []
    requires LinesAt(lines, at, PrintEntry(e, tags, sources))
    ensures ParseEntry(lines, tags, at) == Ok((e, at + |PrintEntry(e, tags, sources)|))
    ensures AllClean(PrintEntry(e, tags, sources))
    decreases e, |e.children| + 1
  {
    hide PrintPair, ParsePair, PrintRow, ParseRow, PrintsFor, CanonicalRecord, IsNumbered, NoLineBreak, ParseChildren,
        PrintChildren, Remapped;
    var head := [PrintPair(26, |e.children|), PrintRow(ENTRY_SCHEMA, tags, Remapped(sources, e.record))];
    SplitLines(lines, at, head, PrintChildren(e, 0, tags, sources));
    LineAt(lines, at, head, 0);
    LineAt(lines, at, head, 1);
    PairRoundTrip(26, |e.children|);
    NumberedStay(sources, e.record);
    RowRoundTrip(tags, ENTRY_SCHEMA, e.record);
    ChildrenRoundTrip(lines, at + 2, e, 0, tags, sources);
    AllCleanJoins(head, PrintChildren(e, 0, tags, sources));
    assert e.children[0..] == e.children;
  }

  lemma {:induction false} ChildrenRoundTrip(lines: seq<string>, at: nat, e: Entry, k: nat, tags: seq<string>,
                                             sources: seq<Record>)
    requires PrintsFor(tags, ENTRY_SCHEMA) && CanonicalEntry(e, tags) && IsNumbered(sources, 0) && sources != []
    requires k <= |e.children| && LinesAt(lines, at, PrintChildren(e, k, tags, sources))
    ensures at <= |lines|
    ensures ParseChildren(lines, tags, at, |e.children| - k)
            == Ok((e.children[k..], at + |PrintChildren(e, k, tags, sources)|))
    ensures AllClean(PrintChildren(e, k, tags, sources))
    decreases e, |e.children| - k
  {
    hide PrintsFor, IsNumbered, NoLineBreak, ParseEntry, PrintEntry, CanonicalRecord;
    if k < |e.children| {
      var first, rest := PrintEntry(e.children[k], tags, sources), PrintChildren(e, k + 1, tags, sources);
      SplitLines(lines, at, first, rest);
      EntryRoundTrip(lines, at, e.children[k], tags, sources);
      ChildrenRoundTrip(lines, at + |first|, e, k + 1, tags, sources);
      AllCleanJoins(first, rest);
      assert [e.children[k]] + e.children[k + 1..] == e.children[k..];
    }
  }

  // ---------------------------------------------------------------- the whole catalog

  predicate CanonicalInfo(info: Info) {
    && CanonicalSources(info.sources)
    && info.subjects != [] && |info.subjects| < U64
    && (forall r <- info.subjects :: CanonicalRecord(SUBJECT_TAGS, SUBJECT_SCHEMA, r))
    && CanonicalGroups(info.groups)
    && CanonicalEntry(info.root, EntryTags(HasGuid(info.root)))
    && info.dataSize < U64
    && EntryDataSize(info.root).Some? && EntryDataSize(info.root).value <= info.dataSize
  }

  lemma RecordSizeIsParsed(lines: seq<string>, at: nat, size: nat)
    requires size < U64 && LinesAt(lines, at, RecordLines(size))
    ensures ParseRecordCategory(lines, at) == Ok(Some(size))
    ensures AllClean(RecordLines(size))
  {
    hide Digits, ParseUnsigned, Split;
    LineAt(lines, at, RecordLines(size), 0);
    LineAt(lines, at, RecordLines(size), 1);
    LineAt(lines, at, RecordLines(size), 2);
    LineAt(lines, at, RecordLines(size), 3);
    SplitOfPrefix("tb", '\t', "");
    DigitsHaveNoBreaks(size);
    UnsignedRoundTrip(size, 10, U64);
    SplitOfPrefix(Digits(size, 10), '\t', "");
    assert ParseTypes("tb") == Ok(["tb"]);
    assert ParseRecordSize(["tb"], [Digits(size, 10)], 0) == Ok(Some(size));
  }

  lemma EntryCategoryRoundTrip(lines: seq<string>, at: nat, info: Info)
    requires CanonicalInfo(info) && LinesAt(lines, at, EntryLines(info))
    ensures ParseEntryCategory(lines, at) == Ok(info.root)
    ensures AllClean(EntryLines(info))
  {
    hide PrintEntry, ParseEntry, PrintPair, ParsePair, ParseTypes, CanonicalEntry, PrintsFor, HasGuid, EntryTags,
        EntryDataSize, IsNumbered,
      CanonicalRecord, NoLineBreak, CanonicalGroups;
    var tags := EntryTags(HasGuid(info.root));
    var head, tree := ["entry", PrintPair(0, 1), Join(tags, '\t')], PrintEntry(info.root, tags, info.sources);
    EntryTagsPrint(HasGuid(info.root));
    SplitLines(lines, at, head + tree, [""]);
    SplitLines(lines, at, head, tree);
    LineAt(lines, at, head, 0);
    LineAt(lines, at, head, 1);
    LineAt(lines, at, head, 2);
    LineAt(lines, at + |head + tree|, [""], 0);
    PairRoundTrip(0, 1);
    TypesRoundTrip(tags, ENTRY_SCHEMA);
    EntryRoundTrip(lines, at + 3, info.root, tags, info.sources);
    WordHasNoBreak();
    AllCleanJoins(head, tree);
    AllCleanJoins(head + tree, [""]);
  }

  lemma WordHasNoBreak()
    ensures NoLineBreak("entry") && NoLineBreak("") && NoLineBreak("5") && NoLineBreak("srce") && NoLineBreak("sub")
  {}

  lemma SourcesRoundTrip(lines: seq<string>, at: nat, sources: seq<Record>)
    requires CanonicalSources(sources) && LinesAt(lines, at, SourceLines(sources))
    ensures ParseFlat(lines, at, "srce", SOURCE_SCHEMA, true) == Ok((sources, at + |SourceLines(sources)|))
    ensures AllClean(SourceLines(sources))
  {
    hide PrintFlat, ParseFlat, CanonicalRecord, PrintsFor;
    SourceTagsPrint();
    WordHasNoBreak();
    NumberedStay(sources, map[]);
    FlatRoundTrip(lines, at, "srce", SOURCE_TAGS, SOURCE_SCHEMA, sources, true);
    FlatIsClean("srce", SOURCE_TAGS, SOURCE_SCHEMA, sources);
  }

  lemma SubjectsRoundTrip(lines: seq<string>, at: nat, subjects: seq<Record>)
    requires subjects != [] && |subjects| < U64
            && forall r <- subjects :: CanonicalRecord(SUBJECT_TAGS, SUBJECT_SCHEMA, r)
    requires LinesAt(lines, at, SubjectLines(subjects))
    ensures ParseFlat(lines, at, "sub", SUBJECT_SCHEMA, false) == Ok((subjects, at + |SubjectLines(subjects)|))
    ensures AllClean(SubjectLines(subjects))
  {
    hide PrintFlat, ParseFlat, CanonicalRecord, PrintsFor, IsNumbered;
    SubjectTagsPrint();
    WordHasNoBreak();
    FlatRoundTrip(lines, at, "sub", SUBJECT_TAGS, SUBJECT_SCHEMA, subjects, false);
    FlatIsClean("sub", SUBJECT_TAGS, SUBJECT_SCHEMA, subjects);
  }

  /** The parts of the printed lines, in order. */
  lemma PartsAreThere(lines: seq<string>, info: Info, size: nat)
    requires LinesAt(lines, 0, PrintLines(info, size))
    ensures GetLine(lines, 0) == Ok("5") && LinesAt(lines, 1, RecordLines(size))
            && LinesAt(lines, 5, PrintPermissions(info.groups))
    ensures var a := 5 + |PrintPermissions(info.groups)|;
            && LinesAt(lines, a, SourceLines(info.sources))
            && LinesAt(lines, a + |SourceLines(info.sources)|, SubjectLines(info.subjects))
            && LinesAt(lines, a + |SourceLines(info.sources)| + |SubjectLines(info.subjects)|, EntryLines(info))
  {
    hide RecordLines, PrintPermissions, SourceLines, SubjectLines, EntryLines;
    var a, b, c, d, e := RecordLines(size), PrintPermissions(info.groups), SourceLines(info.sources),
        SubjectLines(info.subjects), EntryLines(info);
    SplitLines(lines, 0, ["5"] + a + b + c + d + e, [""]);
    SplitLines(lines, 0, ["5"] + a + b + c + d, e);
    SplitLines(lines, 0, ["5"] + a + b + c, d);
    SplitLines(lines, 0, ["5"] + a + b, c);
    SplitLines(lines, 0, ["5"] + a, b);
    SplitLines(lines, 0, ["5"], a);
    LineAt(lines, 0, ["5"], 0);
    RecordLinesAreFour(size);
  }

  lemma RecordLinesAreFour(size: nat)
    ensures |RecordLines(size)| == 4
  {}

  lemma LinesRoundTrip(lines: seq<string>, info: Info, requireSize: bool, length: nat)
    requires CanonicalInfo(info) && LinesAt(lines, 0, PrintLines(info, info.dataSize))
    ensures ParseLines(lines, requireSize, length) == Ok(info)
    ensures AllClean(PrintLines(info, info.dataSize))
  {
    hide *;
    PartsAreThere(lines, info, info.dataSize);
    PartsAreCanonical(info);
    RecordSizeIsParsed(lines, 1, info.dataSize);
    PermissionsRoundTrip(lines, 5, info.groups);
    var a := 5 + |PrintPermissions(info.groups)|;
    SourcesRoundTrip(lines, a, info.sources);
    SubjectsRoundTrip(lines, a + |SourceLines(info.sources)|, info.subjects);
    EntryCategoryRoundTrip(lines, a + |SourceLines(info.sources)| + |SubjectLines(info.subjects)|, info);
    LinesAreParsed(lines, requireSize, length, info, a, a + |SourceLines(info.sources)|,
                   a + |SourceLines(info.sources)| + |SubjectLines(info.subjects)|);
    LinesAreClean(info);
  }

  lemma PartsAreCanonical(info: Info)
    requires CanonicalInfo(info)
    ensures CanonicalGroups(info.groups) && CanonicalSources(info.sources) && info.dataSize < U64
    ensures info.subjects != [] && |info.subjects| < U64
            && forall r <- info.subjects :: CanonicalRecord(SUBJECT_TAGS, SUBJECT_SCHEMA, r)
    ensures EntryDataSize(info.root).Some? && Max(info.dataSize, EntryDataSize(info.root).value) == info.dataSize
  {
    hide CanonicalRecord;
  }

  lemma LinesAreParsed(lines: seq<string>, requireSize: bool, length: nat, info: Info, a: nat, b: nat, c: nat)
    requires GetLine(lines, 0) == Ok("5") && ParseRecordCategory(lines, 1) == Ok(Some(info.dataSize))
    requires ParsePermissions(lines, 5) == Ok((info.groups, a))
            && ParseFlat(lines, a, "srce", SOURCE_SCHEMA, true) == Ok((info.sources, b))
    requires ParseFlat(lines, b, "sub", SUBJECT_SCHEMA, false) == Ok((info.subjects, c))
            && ParseEntryCategory(lines, c) == Ok(info.root)
    ensures ParseLines(lines, requireSize, length) == Ok(info)
  {
    hide ParseRecordCategory, ParsePermissions, ParseFlat, ParseEntryCategory, GetLine;
  }

  lemma LinesAreClean(info: Info)
    requires AllClean(RecordLines(info.dataSize)) && AllClean(PrintPermissions(info.groups))
            && AllClean(SourceLines(info.sources))
    requires AllClean(SubjectLines(info.subjects)) && AllClean(EntryLines(info))
    ensures AllClean(PrintLines(info, info.dataSize))
  {
    hide RecordLines, PrintPermissions, SourceLines, SubjectLines, EntryLines, NoLineBreak;
    WordHasNoBreak();
  }

  // ---------------------------------------------------------------- bytes

  function EncodeAll(lines: seq<string>): (u: seq<seq<Unit>>)
    ensures |u| == |lines|
  {
    if lines == [] then [] else [Encode16(lines[0])] + EncodeAll(lines[1..])
  }

  lemma {:induction false} EncodeOfJoin(lines: seq<string>)
    ensures Encode16(Join(lines, '\n')) == Join(EncodeAll(lines), 10)
  {
    if |lines| > 1 {
      EncodeOfJoin(lines[1..]);
      var rest := Join(lines[1..], '\n');
      EncodeOfConcatenation(lines[0] + ['\n'], rest);
      EncodeOfConcatenation(lines[0], "\n");
      NewlineUnit();
      assert EncodeAll(lines)[1..] == EncodeAll(lines[1..]);
    }
  }

  lemma NewlineUnit()
    ensures Encode16("\n") == [10]
  {
    assert "\n"[1..] == "";
    assert EncodeChar('\n') == [10];
  }

  /** A line break unit comes only from a line break. */
  lemma {:induction false} UnitsOfCleanLine(s: string)
    requires NoLineBreak(s)
    ensures 10 !in Encode16(s) && 13 !in Encode16(s)
  {
    if s != "" {
      assert s[0] in s && forall c <- s[1..] :: c in s;
      UnitsOfCleanLine(s[1..]);
      UnitsOfChar(s[0]);
    }
  }

  lemma UnitsOfChar(c: char)
    requires c != '\n' && c != '\r'
    ensures 10 !in EncodeChar(c) && 13 !in EncodeChar(c)
  {}

  lemma {:induction false} EncodedLinesDecode(lines: seq<string>)
    requires AllClean(lines)
    ensures DecodeLines(EncodeAll(lines)) == Ok(lines)
    ensures forall u <- EncodeAll(lines) :: 10 !in u
  {
    hide NoLineBreak, Encode16, Decode16;
    if lines != [] {
      assert lines[0] in lines && forall l <- lines[1..] :: l in lines;
      EncodedLinesDecode(lines[1..]);
      UnitsOfCleanLine(lines[0]);
      Utf16RoundTrip(lines[0]);
      assert EncodeAll(lines)[1..] == EncodeAll(lines[1..]) && EncodeAll(lines)[0] == Encode16(lines[0]);
      assert [lines[0]] + lines[1..] == lines;
    }
  }

  lemma TextRoundTrips(lines: seq<string>)
    requires AllClean(lines) && lines != []
    ensures var data := UnitsToBytes([0xfeff] + Encode16(Join(lines, '\n')));
            && |data| % 2 == 0 && BytesToUnits(data) == [0xfeff] + Encode16(Join(lines, '\n'))
            && DecodeLines(Split(Encode16(Join(lines, '\n')), 10)) == Ok(lines)
  {
    hide Encode16, Join, Split, DecodeLines, EncodeAll, UnitsToBytes, BytesToUnits, AllClean;
    UnitsRoundTrip([0xfeff] + Encode16(Join(lines, '\n')));
    EncodeOfJoin(lines);
    EncodedLinesDecode(lines);
    SplitOfJoin(EncodeAll(lines), 10);
  }

  /** For every canonical catalog, parsing the printed bytes gives back the catalog: its tree,
      extents, sources, subjects and permissions. */
  lemma CatalogReadsBack(info: Info, requireSize: bool)
    requires CanonicalInfo(info)
    ensures PrintData(info).Ok? && ParseData(PrintData(info).value, requireSize) == Ok(info)
  {
    hide PrintLines, ParseLines, Encode16, Join, Split, DecodeLines, UnitsToBytes, BytesToUnits, CanonicalInfo,
        EntryDataSize, AllClean;
    PartsAreCanonical(info);
    var lines := PrintLines(info, info.dataSize);
    PrintedLines(info, info.dataSize);
    LinesRoundTrip(lines, info, requireSize, |PrintData(info).value|);
    TextRoundTrips(lines);
    var text := Encode16(Join(lines, '\n'));
    assert ([0xfeff] + text)[1..] == text;
  }

  lemma PrintedLines(info: Info, size: nat)
    ensures PrintLines(info, size) != [] && LinesAt(PrintLines(info, size), 0, PrintLines(info, size))
  {
    hide RecordLines, PrintPermissions, SourceLines, SubjectLines, EntryLines;
    var lines := PrintLines(info, size);
    assert lines[0..|lines|] == lines;
  }
}
