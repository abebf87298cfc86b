/** Reading a converted report: a cell under its converted name, a section on its path, and the
    large-message checks, which are exact in bytes. */
module KbReading {
  import opened Wrappers
  import opened KbConversion
  import opened KbTheorems

  // ------------------------------------------------------------------ one cell

  predicate ReadsTheSame(cells: seq<Json>, columns: seq<string>, name: string) {
    RowValue(ConvertRow(Arr(cells), columns), KbNames(columns), KbName(name)) == CellToKb(name, RowValue(Arr(cells), columns, name))
  }

  /** Different columns keep different names. A column may occur twice. */
  predicate NamesStayDistinct(columns: seq<string>) {
    forall i, j | 0 <= i < |columns| && 0 <= j < |columns| :: KbName(columns[i]) == KbName(columns[j]) ==> columns[i] == columns[j]
  }

  /** No other field takes the converted name. */
  predicate Clear(fields: seq<string>, name: string) {
    forall i | 0 <= i < |fields| :: KbName(fields[i]) == KbName(name) ==> fields[i] == name
  }

  lemma {:induction false} IndexOfConverted(columns: seq<string>, name: string)
    requires Clear(columns, name)
    ensures ColumnIndex(KbNames(columns), KbName(name)) == ColumnIndex(columns, name)
  {
    if columns != [] {
      var init := columns[..|columns| - 1];
      IndexOfConverted(init, name);
      assert KbNames(columns)[..|columns| - 1] == KbNames(init);
    }
  }

  lemma NullStays(name: string)
    ensures CellToKb(name, Null) == Null
  {
  }

  lemma ClearReadsTheSame(cells: seq<Json>, columns: seq<string>, name: string)
    requires Clear(columns, name)
    ensures ReadsTheSame(cells, columns, name)
  {
    IndexOfConverted(columns, name);
    NullStays(name);
  }

  /** Every row reads the same under every column exactly when the converted names stay
      distinct: two columns with one converted name hide one of their cells. */
  lemma ReadsTheSameIff(columns: seq<string>)
    ensures NamesStayDistinct(columns) <==> forall cells, name | name in columns :: ReadsTheSame(cells, columns, name)
  {
    if NamesStayDistinct(columns) {
      forall cells, name | name in columns
        ensures ReadsTheSame(cells, columns, name)
      {
        assert Clear(columns, name);
        ClearReadsTheSame(cells, columns, name);
      }
    } else {
      var i, j :| 0 <= i < |columns| && 0 <= j < |columns| && KbName(columns[i]) == KbName(columns[j]) && columns[i] != columns[j];
      var cells, name := HiddenCell(columns, i, j);
      assert !ReadsTheSame(cells, columns, name);
    }
  }

  /** The column read under the shared name holds text, the other one nothing. */
  lemma HiddenCell(columns: seq<string>, i: nat, j: nat) returns (cells: seq<Json>, name: string)
    requires i < |columns| && j < |columns| && KbName(columns[i]) == KbName(columns[j]) && columns[i] != columns[j]
    ensures name in columns && !ReadsTheSame(cells, columns, name)
  {
    assert KbNames(columns)[i] == KbName(columns[i]);
    var shown := ColumnIndex(KbNames(columns), KbName(columns[i])).value;
    var winner := columns[shown];
    name := if columns[i] == winner then columns[j] else columns[i];
    var text := Str("", None);
    cells := seq(|columns|, k requires 0 <= k < |columns| => if columns[k] == winner then text else Null);
    assert RowValue(Arr(cells), columns, name) == Null;
    NullStays(name);
    var converted := ConvertCells(cells, columns);
    assert converted[shown] == CellToKb(winner, text) == text;
    assert KbName(name) == KbName(columns[i]);
  }

  /** A dictionary row: the member of a byte key is converted as a cell, and any other member
      as a report of its own. */
  lemma DictReadsTheSame(entries: seq<Entry>, name: string)
    requires DistinctKeys(entries) && forall i | 0 <= i < |entries| :: KbName(entries[i].key) == KbName(name) ==> entries[i].key == name
    ensures Lookup(ConvertDict(Obj(entries)).entries, KbName(name))
            == match Lookup(entries, name)
               case None => None
               case Some(v) => Some(if IsByteField(name) then CellToKb(name, v) else Convert(v, []))
  {
    var writes := DictWrites(entries);
    forall i | 0 <= i < |entries|
      ensures Writes(writes[i], KbName(name)) <==> entries[i].key == name
    {
      assert writes[i] == ConvertDictMember(entries[i].key, entries[i].value);
    }
    if Lookup(entries, name).Some? {
      var i := LookupIsEntry(entries, name);
      OnlyWrite(writes, i, KbName(name));
      assert writes[i] == ConvertDictMember(name, entries[i].value);
    } else {
      LookupMisses(entries, name);
      NoWrite(writes, KbName(name));
      LookupCollect(writes, KbName(name));
    }
  }

  // ------------------------------------------------------------------ thresholds

  lemma CeilExceedsIff(bytes: int, threshold: int)
    ensures KbNumber(bytes as real, true) > threshold as real <==> bytes > threshold * BYTES_IN_KB
  {
    CeilAbove(bytes as real / 1024.0, threshold);
    assert bytes as real / 1024.0 * 1024.0 == bytes as real;
  }

  lemma CeilAbove(x: real, k: int)
    ensures Ceil(x) as real > k as real <==> x > k as real
  {
    var down := (-x).Floor;
    assert down as real <= -x < down as real + 1.0;
    assert Ceil(x) > k <==> down < -k;
    assert down < -k <==> -x < (-k) as real;
  }

  /** Rounding never crosses an integer. */
  lemma HalfEvenBounds(x: real, k: int)
    ensures x <= k as real ==> HalfEven(x) <= k
    ensures HalfEven(x) as real >= x - 0.5
  {
  }

  /** Six decimals are enough: a byte is more than 0.0009 KB. */
  lemma RoundExceedsIff(bytes: int, threshold: int)
    ensures KbNumber(bytes as real, false) > threshold as real <==> bytes > threshold * BYTES_IN_KB
  {
    var q := bytes as real / 1024.0 * 1000000.0;
    var k := threshold * 1000000;
    HalfEvenBounds(q, k);
    var r := HalfEven(q);
    assert r as real / 1000000.0 > threshold as real <==> r > k by {
      ScaledCompare(r, threshold);
    }
    if bytes > threshold * BYTES_IN_KB {
      assert bytes as real >= threshold as real * 1024.0 + 1.0;
      assert q >= k as real + 976.0;
    } else {
      assert bytes as real <= threshold as real * 1024.0;
      assert q <= k as real;
    }
  }

  lemma ScaledCompare(r: int, threshold: int)
    ensures r as real / 1000000.0 > threshold as real <==> r > threshold * 1000000
  {
    assert r as real / 1000000.0 * 1000000.0 == r as real;
  }

  lemma KbExceedsIff(field: string, v: Json, threshold: int)
    requires IsByteField(field) && NumberValue(v) == NumberValue(v).Floor as real
    ensures NumberValue(CellToKb(field, v)) > threshold as real <==> NumberValue(v) > (threshold * BYTES_IN_KB) as real
  {
    var bytes := NumberValue(v).Floor;
    CeilExceedsIff(bytes, threshold);
    RoundExceedsIff(bytes, threshold);
  }

  // ------------------------------------------------------------------ one row

  /** A list or dictionary row whose size cell, if any, is a whole number of bytes, and in which
      no other field takes the size column's converted name. */
  predicate Sized(row: Json, columns: seq<string>, name: string) {
    && NumberValue(RowValue(row, columns, name)) == NumberValue(RowValue(row, columns, name)).Floor as real
    && (row.Arr? ==> Clear(columns, name))
    && (row.Obj? ==> DistinctKeys(row.entries) &&
                     forall i | 0 <= i < |row.entries| :: KbName(row.entries[i].key) == KbName(name) ==> row.entries[i].key == name)
  }

  /** How a section's row is converted: with its columns, or as a report of its own. */
  function ConvertOne(row: Json, columns: seq<string>): Json {
    if columns == [] then Convert(row, []) else ConvertRow(row, columns)
  }

  /** A dictionary that is converted as a report reads the same under a byte field as one that
      is converted as a row. */
  lemma ReportReadsTheSame(entries: seq<Entry>, name: string)
    requires DistinctKeys(entries) && IsByteField(name)
    requires forall i | 0 <= i < |entries| :: KbName(entries[i].key) == KbName(name) ==> entries[i].key == name
    ensures Lookup(Convert(Obj(entries), []).entries, KbName(name))
            == match Lookup(entries, name) case None => None case Some(v) => Some(CellToKb(name, v))
  {
    var section := SectionColumns(entries);
    MembersNamed(entries, section);
    HeaderNotByte(section, name);
    if Lookup(entries, name).Some? {
      var i := LookupIsEntry(entries, name);
      assert forall m | 0 <= m < |entries| && m != i :: KeyNames(entries)[m] != KeyNames(entries)[i];
      WrittenAs(entries[i].key, entries[i].value, section);
      FoundByName(Header(section), MemberWrites(entries, section), KeyNames(entries), i);
    } else {
      LookupMisses(entries, name);
      NotFoundByName(Header(section), MemberWrites(entries, section), KeyNames(entries), KbName(name));
    }
  }

  lemma HeaderNotByte(section: Option<seq<Entry>>, name: string)
    requires IsByteField(name)
    ensures forall h | 0 <= h < |Header(section)| :: !Writes(Header(section)[h], KbName(name))
  {
    ReservedArePlain();
    KbNameIsFinal(name);
  }

  lemma WrittenAs(key: string, child: Json, section: Option<seq<Entry>>)
    requires IsByteField(key)
    ensures ConvertMember(key, child, section) == Some(Entry(KbName(key), CellToKb(key, child)))
  {
    ReservedArePlain();
  }

  lemma RowFlaggedIff(row: Json, columns: seq<string>, name: string, threshold: int)
    requires Sized(row, columns, name) && IsByteField(name)
    ensures NumberValue(RowValue(ConvertOne(row, columns), KbNames(columns), KbName(name))) > threshold as real
            <==> NumberValue(RowValue(row, columns, name)) > (threshold * BYTES_IN_KB) as real
  {
    KbExceedsIff(name, RowValue(row, columns, name), threshold);
    NullStays(name);
    if row.Arr? {
      if columns != [] {
        ClearReadsTheSame(row.items, columns, name);
      }
    } else if row.Obj? {
      if columns == [] {
        ReportReadsTheSame(row.entries, name);
      } else {
        DictReadsTheSame(row.entries, name);
      }
    } else {
      ScalarRowStays(row, columns);
    }
  }

  lemma ScalarRowStays(row: Json, columns: seq<string>)
    requires Scalar(row)
    ensures ConvertOne(row, columns) == row
    ensures forall names, name :: RowValue(row, names, name) == Null
  {
    ScalarsStay(row, [], "");
  }

  // ------------------------------------------------------------------ one section

  function ConvertRows(rows: seq<Json>, columns: seq<string>): (r: seq<Json>)
    ensures |r| == |rows|
  {
    seq(|rows|, i requires 0 <= i < |rows| => ConvertOne(rows[i], columns))
  }

  lemma RowsOfConverted(rows: seq<Json>, columns: seq<string>)
    ensures Convert(Arr(rows), columns).items == ConvertRows(rows, columns)
  {
  }

  lemma {:induction false} OversizedExact(rows: seq<Json>, columns: seq<string>, name: string, threshold: int)
    requires IsByteField(name) && forall i | 0 <= i < |rows| :: Sized(rows[i], columns, name)
    ensures Oversized(ConvertRows(rows, columns), KbNames(columns), KbName(name), threshold)
            == ConvertRows(Oversized(rows, columns, name, threshold * BYTES_IN_KB), columns)
  {
    if rows != [] {
      RowFlaggedIff(rows[0], columns, name, threshold);
      OversizedExact(rows[1..], columns, name, threshold);
      assert ConvertRows(rows, columns)[1..] == ConvertRows(rows[1..], columns);
      var rest := Oversized(rows[1..], columns, name, threshold * BYTES_IN_KB);
      ConvertFirst(rows[0], rest, columns);
      assert [] + rest == rest;
    }
  }

  lemma ConvertFirst(row: Json, rest: seq<Json>, columns: seq<string>)
    ensures ConvertRows([row] + rest, columns) == [ConvertOne(row, columns)] + ConvertRows(rest, columns)
  {
    var all := [row] + rest;
    forall i | 0 <= i < |rest|
      ensures ConvertRows(all, columns)[i + 1] == ConvertRows(rest, columns)[i]
    {
      assert all[i + 1] == rest[i];
    }
  }

  // ------------------------------------------------------------------ the whole report

  predicate PlainPath(path: seq<string>) {
    forall i | 0 <= i < |path| :: Plain(path[i]) && path[i] != "columns" && path[i] != "queries"
  }

  /** The member of a plain key is converted with its own columns. */
  lemma PlainMember(entries: seq<Entry>, key: string)
    requires DistinctKeys(entries) && Plain(key) && key != "columns" && key != "queries"
    ensures Lookup(Convert(Obj(entries), []).entries, key)
            == match Lookup(entries, key)
               case None => None
               case Some(v) => Some(Convert(v, ChildColumns(SectionColumns(entries), key)))
  {
    var section := SectionColumns(entries);
    var header, members := Header(section), MemberWrites(entries, section);
    var writes := Writing(entries);
    forall i | 0 <= i < |writes|
      ensures Writes(writes[i], key) <==> i >= |header| && entries[i - |header|].key == key
    {
      if i >= |header| {
        assert writes[i] == members[i - |header|];
        MemberOfKey(entries[i - |header|].key, entries[i - |header|].value, section, key);
      } else {
        assert writes[i] == header[i];
      }
    }
    if Lookup(entries, key).Some? {
      var i := LookupIsEntry(entries, key);
      OnlyWrite(writes, |header| + i, key);
      assert writes[|header| + i] == ConvertMember(key, entries[i].value, section);
    } else {
      LookupMisses(entries, key);
      NoWrite(writes, key);
      LookupCollect(writes, key);
    }
  }

  lemma MemberOfKey(from: string, child: Json, section: Option<seq<Entry>>, key: string)
    requires Plain(key) && key != "columns" && key != "queries"
    ensures Writes(ConvertMember(from, child, section), key) <==> from == key
  {
    if Writes(ConvertMember(from, child, section), key) {
      PlainComesFromItself(key, from);
    }
  }

  function ConvertedSection(section: Option<Section>): Option<Section> {
    match section
    case None => None
    case Some(s) => Some(Section(Convert(Arr(s.rows), s.columns).items, KbNames(s.columns)))
  }

  /** A section found in the converted report is the converted section, and reading raises on
      one report exactly when it does on the other. */
  lemma {:induction false} SectionOfConverted(report: Json, columns: seq<string>, path: seq<string>)
    requires WellKeyed(report) && path != [] && PlainPath(path)
    ensures SectionRows(Convert(report, columns), path) == ConvertedSection(SectionRows(report, path))
    decreases |path|
  {
    EmptySection();
    if report.Obj? {
      var entries, section := report.entries, SectionColumns(report.entries);
      assert Convert(report, columns) == Convert(Obj(entries), []);
      if |path| == 1 {
        assert path == [path[0]];
        LastStep(entries, path[0]);
      } else {
        PlainMember(entries, path[0]);
        if Lookup(entries, path[0]).Some? {
          var i := LookupIsEntry(entries, path[0]);
          var child := entries[i].value;
          var childColumns := ChildColumns(section, path[0]);
          SectionOfConverted(child, childColumns, path[1..]);
          assert SectionRows(report, path) == SectionRows(child, path[1..]);
          assert SectionRows(Convert(report, columns), path) == SectionRows(Convert(child, childColumns), path[1..]);
        }
      }
    }
  }

  lemma EmptySection()
    ensures ConvertedSection(Some(Section([], []))) == Some(Section([], []))
  {
    assert Convert(Arr([]), []).items == [];
    assert KbNames([]) == [];
  }

  lemma LastStep(entries: seq<Entry>, key: string)
    requires DistinctKeys(entries) && PlainPath([key])
    ensures SectionRows(Convert(Obj(entries), []), [key]) == ConvertedSection(SectionRows(Obj(entries), [key]))
  {
    assert [key][0] == key;
    PlainMember(entries, key);
    SectionStays(entries);
    ColumnsPresent(entries);
    ChildColumnsConverted(SectionColumns(entries), key);
    var rows, columns := Lookup(entries, key), ChildColumns(SectionColumns(entries), key);
    assert Convert(Arr([]), columns).items == [];
    var before := SectionRows(Obj(entries), [key]);
    if before.Some? {
      assert before.value == Section(if rows.Some? && rows.value.Arr? then rows.value.items else [], columns);
    }
    if rows.Some? && !rows.value.Arr? {
      assert !Convert(rows.value, columns).Arr?;
    }
  }

  /** Whether there are columns at all, and whether they are a dictionary. */
  lemma ColumnsPresent(entries: seq<Entry>)
    requires DistinctKeys(entries)
    ensures Lookup(entries, "columns").Some? <==> Lookup(Convert(Obj(entries), []).entries, "columns").Some?
  {
    var section, writes := SectionColumns(entries), Writing(entries);
    var after := Convert(Obj(entries), []).entries;
    if section.Some? {
      SectionStays(entries);
    } else {
      forall i | 0 <= i < |writes|
        ensures Writes(writes[i], "columns") <==> entries[i].key == "columns"
      {
        assert writes[i] == ConvertMember(entries[i].key, entries[i].value, None);
        ColumnsMember(entries[i].key, entries[i].value, None);
        ReservedArePlain();
      }
      if Lookup(entries, "columns").Some? {
        var i := LookupIsEntry(entries, "columns");
        OnlyWrite(writes, i, "columns");
      } else {
        LookupMisses(entries, "columns");
        NoWrite(writes, "columns");
        LookupCollect(writes, "columns");
      }
    }
  }

  /** On the converted report the check finds exactly the rows that exceed the threshold in
      bytes, in order: for the column that is rounded up and for one rounded to six decimals. */
  lemma LargeMessagesExact(report: Json, path: seq<string>, name: string, threshold: int)
    requires WellKeyed(report) && path != [] && PlainPath(path) && IsByteField(name)
    requires SectionRows(report, path).Some?
    requires var s := SectionRows(report, path).value;
             forall i | 0 <= i < |s.rows| :: Sized(s.rows[i], s.columns, name)
    ensures SectionRows(Convert(report, []), path).Some?
    ensures var s, converted := SectionRows(report, path).value, SectionRows(Convert(report, []), path).value;
            Oversized(converted.rows, converted.columns, KbName(name), threshold)
            == Convert(Arr(Oversized(s.rows, s.columns, name, threshold * BYTES_IN_KB)), s.columns).items
  {
    SectionOfConverted(report, [], path);
    var s := SectionRows(report, path).value;
    RowsOfConverted(s.rows, s.columns);
    OversizedExact(s.rows, s.columns, name, threshold);
    RowsOfConverted(Oversized(s.rows, s.columns, name, threshold * BYTES_IN_KB), s.columns);
  }

  const GRAYLOG_PATH := ["logs", "large_messages", "top_by_max_message_size"]
  const VICTORIALOGS_PATH := ["logs", "message_size", "top_by_max_message_size"]

  /** The two checks look where the theorem applies: their paths are plain and the names they
      look up are the converted names of byte fields, the first rounded up. */
  lemma BothChecksCovered()
    ensures PlainPath(GRAYLOG_PATH) && PlainPath(VICTORIALOGS_PATH)
    ensures IsByteField(MAX_FIELD) && WithoutSuffix(MAX_FIELD) && KbName(MAX_FIELD) == "max_gl2_accounted_message_size_kb"
    ensures IsByteField("max_message_size_bytes") && !WithoutSuffix("max_message_size_bytes")
    ensures KbName("max_message_size_bytes") == "max_message_size_kb"
  {
    PathWords();
    assert MAX_FIELD + "_kb" == "max_gl2_accounted_message_size_kb";
    assert |MAX_FIELD + "_kb"| != |MAX_FIELD|;
    var field := "max_message_size_bytes";
    assert field[|field| - 1] == 's' && SUM_FIELD[|SUM_FIELD| - 1] == 'e' && MAX_FIELD[|MAX_FIELD| - 1] == 'e';
    assert field[|field| - 6..] == "_bytes";
    assert field[..|field| - 6] + "_kb" == "max_message_size_kb";
    assert |"max_message_size_kb"| != |field|;
  }

  lemma EndsPlain(key: string)
    requires |key| >= 3 && key[|key| - 3] != 't' && key[|key| - 1] != 'b' && |key| < |SUM_FIELD|
    ensures Plain(key)
  {
    assert |SUM_FIELD| == |MAX_FIELD|;
    assert "_bytes"[3] == 't' && "_kb"[2] == 'b';
  }

  lemma PathWords()
    ensures PlainPath(GRAYLOG_PATH) && PlainPath(VICTORIALOGS_PATH)
  {
    EndsPlain("logs");
    EndsPlain("large_messages");
    EndsPlain("message_size");
    EndsPlain("top_by_max_message_size");
    PlainThree("logs", "large_messages", "top_by_max_message_size");
    PlainThree("logs", "message_size", "top_by_max_message_size");
  }

  lemma PlainThree(a: string, b: string, c: string)
    requires Plain(a) && Plain(b) && Plain(c)
    requires a != "" && b != "" && c != "" && a[0] !in "cq" && b[0] !in "cq" && c[0] !in "cq"
    ensures PlainPath([a, b, c])
  {
    assert "columns"[0] == 'c' && "queries"[0] == 'q';
  }
}
