/** Byte fields of a report shown in KB (scripts/log-analysis/log_storage_report.py). */
module KbConversion {
  import opened Wrappers

  const BYTES_IN_KB := 1024
  const SUM_FIELD := "sum_gl2_accounted_message_size"
  const MAX_FIELD := "max_gl2_accounted_message_size"

  /** A report value. A text carries the number float() reads from it, if any; an object lists
      its entries in insertion order. */
  datatype Json =
    | Null
    | Bool(flag: bool)
    | Num(number: real)
    | Str(text: string, numeric: Option<real>)
    | Arr(items: seq<Json>)
    | Obj(entries: seq<Entry>)

  datatype Entry = Entry(key: string, value: Json)

  predicate Scalar(v: Json) {
    !v.Arr? && !v.Obj?
  }

  // ------------------------------------------------------------------ dictionaries

  function Lookup(entries: seq<Entry>, key: string): Option<Json> {
    if entries == [] then None
    else if entries[0].key == key then Some(entries[0].value)
    else Lookup(entries[1..], key)
  }

  /** d[key] = value: a present key keeps its place. */
  function Put(entries: seq<Entry>, e: Entry): seq<Entry> {
    if entries == [] then [e]
    else if entries[0].key == e.key then [e] + entries[1..]
    else [entries[0]] + Put(entries[1..], e)
  }

  /** Assignments in turn; None is a skipped one. */
  function Collect(writes: seq<Option<Entry>>): seq<Entry> {
    if writes == [] then [] else
    var before := Collect(writes[..|writes| - 1]);
    match writes[|writes| - 1]
    case None => before
    case Some(e) => Put(before, e)
  }

  predicate DistinctKeys(entries: seq<Entry>) {
    forall i, j | 0 <= i < j < |entries| :: entries[i].key != entries[j].key
  }

  // ------------------------------------------------------------------ numbers and names

  predicate EndsWith(s: string, suffix: string) {
    |s| >= |suffix| && s[|s| - |suffix|..] == suffix
  }

  predicate WithoutSuffix(field: string) {
    field == SUM_FIELD || field == MAX_FIELD
  }

  function KbName(field: string): string {
    if WithoutSuffix(field) then field + "_kb"
    else if EndsWith(field, "_bytes") then field[..|field| - 6] + "_kb"
    else field
  }

  predicate IsByteField(field: string) {
    KbName(field) != field
  }

  function Ceil(x: real): int {
    -((-x).Floor)
  }

  /** The nearest integer, an even one on a tie. */
  function HalfEven(x: real): int {
    var low := x.Floor;
    var part := x - low as real;
    if part < 0.5 then low
    else if part > 0.5 then low + 1
    else if low % 2 == 0 then low
    else low + 1
  }

  function KbNumber(bytes: real, ceiled: bool): real {
    if ceiled then Ceil(bytes / 1024.0) as real else HalfEven(bytes / 1024.0 * 1000000.0) as real / 1000000.0
  }

  function BytesToKb(v: Json, ceiled: bool): Json {
    match v
    case Num(n) => Num(KbNumber(n, ceiled))
    case Str(_, Some(n)) => Num(KbNumber(n, ceiled))
    case _ => v
  }

  /** The cell of a column or the member of a byte-named key. */
  function CellToKb(field: string, v: Json): Json {
    if IsByteField(field) then BytesToKb(v, WithoutSuffix(field)) else v
  }

  // ------------------------------------------------------------------ the conversion

  function KbNames(columns: seq<string>): (r: seq<string>)
    ensures |r| == |columns|
  {
    seq(|columns|, i requires 0 <= i < |columns| => KbName(columns[i]))
  }

  /** The names in a column list. */
  function ColumnNames(columns: Option<Json>): seq<string> {
    if columns.Some? && columns.value.Arr? then
      var items := columns.value.items;
      seq(|items|, i requires 0 <= i < |items| => if items[i].Str? then items[i].text else "")
    else []
  }

  function ColumnToKb(column: Json): Json {
    if column.Str? && IsByteField(column.text) then Str(KbName(column.text), None) else column
  }

  function ColumnsToKb(columns: Json): Json {
    match columns
    case Arr(items) => Arr(seq(|items|, i requires 0 <= i < |items| => ColumnToKb(items[i])))
    case Obj(entries) =>
      Obj(seq(|entries|, i requires 0 <= i < |entries| => Entry(entries[i].key, ColumnsToKb(entries[i].value))))
    case _ => columns
  }

  /** The column dictionary of a section, if it has one. */
  function SectionColumns(entries: seq<Entry>): Option<seq<Entry>> {
    match Lookup(entries, "columns")
    case Some(Obj(columns)) => Some(columns)
    case _ => None
  }

  function Header(columns: Option<seq<Entry>>): seq<Option<Entry>> {
    if columns.Some? then [Some(Entry("columns", ColumnsToKb(Obj(columns.value))))] else []
  }

  function Convert(v: Json, columns: seq<string>): Json
    decreases v, 1
  {
    match v
    case Arr(items) =>
      Arr(seq(|items|, i requires 0 <= i < |items| =>
        if columns == [] then Convert(items[i], []) else ConvertRow(items[i], columns)))
    case Obj(entries) =>
      Obj(Collect(Header(SectionColumns(entries)) + MemberWrites(entries, SectionColumns(entries))))
    case _ => v
  }

  function MemberWrites(entries: seq<Entry>, section: Option<seq<Entry>>): (r: seq<Option<Entry>>)
    ensures |r| == |entries|
    decreases Obj(entries), 0
  {
    seq(|entries|, i requires 0 <= i < |entries| => ConvertMember(entries[i].key, entries[i].value, section))
  }

  function ConvertMember(key: string, child: Json, section: Option<seq<Entry>>): Option<Entry>
    decreases child, 2
  {
    if section.Some? && key == "columns" then None
    else if key == "queries" then Some(Entry(key, child))
    else if IsByteField(key) then Some(Entry(KbName(key), BytesToKb(child, WithoutSuffix(key))))
    else Some(Entry(key, Convert(child, if section.Some? then ColumnNames(Lookup(section.value, key)) else [])))
  }

  function ConvertRow(row: Json, columns: seq<string>): Json
    decreases row, 2
  {
    match row
    case Obj(_) => ConvertDict(row)
    case Arr(cells) => Arr(ConvertCells(cells, columns))
    case _ => Convert(row, [])
  }

  /** Column by column; a repeated column name converts only its own cell. */
  function ConvertCells(cells: seq<Json>, columns: seq<string>): (r: seq<Json>)
    ensures |r| == |cells|
  {
    seq(|cells|, i requires 0 <= i < |cells| => if i < |columns| then CellToKb(columns[i], cells[i]) else cells[i])
  }

  function ConvertDict(row: Json): Json
    requires row.Obj?
    decreases row, 1
  {
    Obj(Collect(DictWrites(row.entries)))
  }

  function DictWrites(entries: seq<Entry>): (r: seq<Option<Entry>>)
    ensures |r| == |entries|
    decreases Obj(entries), 0
  {
    seq(|entries|, i requires 0 <= i < |entries| => ConvertDictMember(entries[i].key, entries[i].value))
  }

  function ConvertDictMember(key: string, child: Json): Option<Entry>
    decreases child, 2
  {
    Some(Entry(KbName(key), if IsByteField(key) then BytesToKb(child, WithoutSuffix(key)) else Convert(child, [])))
  }

  // ------------------------------------------------------------------ the loops

  method ConvertRowByteFields(row: Json, columns: seq<string>) returns (r: Json)
    ensures r == ConvertRow(row, columns)
    decreases row, 2
  {
    match row
    case Obj(_) => r := ConvertDictByteFields(row);
    case Arr(cells) =>
      var converted := cells;
      for index := 0 to |columns|
        invariant |converted| == |cells|
        invariant converted == ConvertCells(cells, columns[..index])
      {
        assert columns[..index + 1][..index] == columns[..index];
        if index < |converted| && IsByteField(columns[index]) {
          converted := converted[index := BytesToKb(converted[index], WithoutSuffix(columns[index]))];
        }
      }
      assert columns[..|columns|] == columns;
      r := Arr(converted);
    case _ => r := ConvertByteFieldsToKb(row, []);
  }

  method ConvertDictByteFields(row: Json) returns (r: Json)
    requires row.Obj?
    ensures r == ConvertDict(row)
    decreases row, 1
  {
    ghost var all := DictWrites(row.entries);
    var converted := [];
    for i := 0 to |row.entries|
      invariant converted == Collect(all[..i])
    {
      var key, child := row.entries[i].key, row.entries[i].value;
      assert all[..i + 1] == all[..i] + [ConvertDictMember(key, child)];
      if IsByteField(key) {
        converted := Put(converted, Entry(KbName(key), BytesToKb(child, WithoutSuffix(key))));
      } else {
        var inner := ConvertByteFieldsToKb(child, []);
        converted := Put(converted, Entry(key, inner));
      }
    }
    assert all[..|row.entries|] == all;
    r := Obj(converted);
  }

  method ConvertItems(items: seq<Json>, columns: seq<string>) returns (r: seq<Json>)
    ensures Arr(r) == Convert(Arr(items), columns)
    decreases Arr(items), 0
  {
    r := [];
    for i := 0 to |items|
      invariant |r| == i
      invariant forall k | 0 <= k < i :: r[k] == if columns == [] then Convert(items[k], []) else ConvertRow(items[k], columns)
    {
      var item;
      if columns == [] {
        item := ConvertByteFieldsToKb(items[i], []);
      } else {
        item := ConvertRowByteFields(items[i], columns);
      }
      r := r + [item];
    }
  }

  method ConvertByteFieldsToKb(value: Json, columns: seq<string>) returns (r: Json)
    ensures r == Convert(value, columns)
    decreases value, 1
  {
    match value
    case Arr(items) =>
      var converted := ConvertItems(items, columns);
      r := Arr(converted);
    case Obj(entries) =>
      var converted := ConvertMembers(entries);
      r := Obj(converted);
    case _ => r := value;
  }

  method ConvertMembers(entries: seq<Entry>) returns (converted: seq<Entry>)
    ensures Obj(converted) == Convert(Obj(entries), [])
    decreases Obj(entries), 0
  {
    var section := SectionColumns(entries);
    ghost var header, members := Header(section), MemberWrites(entries, section);
    converted := if section.Some? then [Entry("columns", ColumnsToKb(Obj(section.value)))] else [];
    assert Collect(header) == converted;
    assert header + members[..0] == header;
    for i := 0 to |entries|
      invariant converted == Collect(header + members[..i])
    {
      var member := ConvertEntry(entries[i], section);
      CollectStep(header, members, i);
      assert members[i] == member;
      if member.Some? {
        converted := Put(converted, member.value);
      }
    }
    assert members[..|entries|] == members;
  }

  lemma CollectStep(header: seq<Option<Entry>>, members: seq<Option<Entry>>, i: nat)
    requires i < |members|
    ensures Collect(header + members[..i + 1])
            == match members[i] case None => Collect(header + members[..i]) case Some(e) => Put(Collect(header + members[..i]), e)
  {
    var writes := header + members[..i + 1];
    assert writes[..|writes| - 1] == header + members[..i];
  }

  /** The body of the loop over a dictionary; None is the `continue` for its columns. */
  method ConvertEntry(entry: Entry, section: Option<seq<Entry>>) returns (member: Option<Entry>)
    ensures member == ConvertMember(entry.key, entry.value, section)
    decreases entry.value, 2
  {
    var key, child := entry.key, entry.value;
    if section.Some? && key == "columns" {
      return None;
    }
    if key == "queries" {
      return Some(Entry(key, child));
    }
    if IsByteField(key) {
      return Some(Entry(KbName(key), BytesToKb(child, WithoutSuffix(key))));
    }
    var converted := ConvertByteFieldsToKb(child, if section.Some? then ColumnNames(Lookup(section.value, key)) else []);
    return Some(Entry(key, converted));
  }

  // ------------------------------------------------------------------ reading a report

  /** The last index: a dictionary from column to index keeps the last assignment. */
  function ColumnIndex(columns: seq<string>, name: string): (r: Option<nat>)
    ensures r.Some? <==> name in columns
    ensures r.Some? ==> r.value < |columns| && columns[r.value] == name && name !in columns[r.value + 1..]
  {
    if columns == [] then None
    else if columns[|columns| - 1] == name then Some(|columns| - 1)
    else ColumnIndex(columns[..|columns| - 1], name)
  }

  /** row_value for one name; None is Null. */
  function RowValue(row: Json, columns: seq<string>, name: string): Json {
    match row
    case Obj(entries) => (match Lookup(entries, name) case Some(v) => v case None => Null)
    case Arr(cells) =>
      var index := ColumnIndex(columns, name);
      if index.Some? && index.value < |cells| then cells[index.value] else Null
    case _ => Null
  }

  function NumberValue(v: Json): real {
    match v
    case Num(n) => n
    case Str(_, Some(n)) => n
    case Bool(b) => if b then 1.0 else 0.0
    case _ => 0.0
  }

  datatype Section = Section(rows: seq<Json>, columns: seq<string>)

  /** None when the section's columns are not a dictionary: reading them raises. */
  function SectionRows(report: Json, path: seq<string>): Option<Section>
    requires path != []
    decreases |path|
  {
    if !report.Obj? then Some(Section([], []))
    else if |path| > 1 then
      match Lookup(report.entries, path[0])
      case Some(child) => SectionRows(child, path[1..])
      case None => Some(Section([], []))
    else
      var rows := Lookup(report.entries, path[0]);
      var columns := Lookup(report.entries, "columns");
      if columns.Some? && !columns.value.Obj? then None
      else Some(Section(
        if rows.Some? && rows.value.Arr? then rows.value.items else [],
        if columns.Some? then ColumnNames(Lookup(columns.value.entries, path[0])) else []))
  }

  /** The rows whose column exceeds the threshold. */
  function Oversized(rows: seq<Json>, columns: seq<string>, name: string, threshold: int): seq<Json> {
    if rows == [] then []
    else OversizedOne(rows[0], columns, name, threshold) + Oversized(rows[1..], columns, name, threshold)
  }

  function OversizedOne(row: Json, columns: seq<string>, name: string, threshold: int): seq<Json> {
    if NumberValue(RowValue(row, columns, name)) > threshold as real then [row] else []
  }
}
