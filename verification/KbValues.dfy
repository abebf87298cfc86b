/** What the KB conversion does in place: to a name, to a number, to a member of a dictionary and
    to a cell of a row; and what reading the report comes to. */
module KbValues {
  import opened Wrappers
  import opened KbConversion
  import opened KbTheorems
  import opened KbTwice
  import opened KbReading

  // ------------------------------------------------------------------ names

  /** The two fields without suffix get one, and any other name with the suffix "_bytes" trades it
      for "_kb". */
  lemma KbNameOfByteField(stem: string)
    ensures KbName("sum_gl2_accounted_message_size") == "sum_gl2_accounted_message_size_kb"
    ensures KbName("max_gl2_accounted_message_size") == "max_gl2_accounted_message_size_kb"
    ensures KbName(stem + "_bytes") == stem + "_kb" && IsByteField(stem + "_bytes")
  {
    assert SUM_FIELD + "_kb" == "sum_gl2_accounted_message_size_kb" && MAX_FIELD + "_kb" == "max_gl2_accounted_message_size_kb";
    var field := stem + "_bytes";
    assert field[|field| - 6..] == "_bytes" && field[..|field| - 6] == stem;
    assert field[|field| - 1] == 's' && SUM_FIELD[|SUM_FIELD| - 1] == 'e' && MAX_FIELD[|MAX_FIELD| - 1] == 'e';
    assert |stem + "_kb"| != |field|;
  }

  /** No other name changes. */
  lemma ByteFieldIff(field: string)
    ensures IsByteField(field) <==>
            || field == "sum_gl2_accounted_message_size" || field == "max_gl2_accounted_message_size"
            || exists stem :: field == stem + "_bytes"
  {
    if EndsWith(field, "_bytes") {
      assert field == field[..|field| - 6] + "_bytes";
    }
    if stem :| field == stem + "_bytes" {
      KbNameOfByteField(stem);
    }
    if WithoutSuffix(field) {
      assert |field + "_kb"| != |field|;
    }
  }

  // ------------------------------------------------------------------ numbers

  lemma CeilIff(x: real, n: int)
    ensures n == Ceil(x) <==> n as real - 1.0 < x <= n as real
  {
    var down := (-x).Floor;
    assert down as real <= -x < down as real + 1.0;
  }

  /** The nearest integer, and of two the even one. */
  lemma HalfEvenIff(x: real, n: int)
    ensures n == HalfEven(x) <==>
            && n as real - 0.5 <= x <= n as real + 0.5
            && (x == n as real - 0.5 || x == n as real + 0.5 ==> n % 2 == 0)
  {
    var low := x.Floor;
    assert low as real <= x < low as real + 1.0;
    if n as real - 0.5 <= x <= n as real + 0.5 {
      assert n == low || n == low + 1;
    }
  }

  /** The number a value stands for, be it a number or a text. */
  ghost predicate HasNumber(v: Json, number: real) {
    v == Num(number) || (v.Str? && v.numeric == Some(number))
  }

  /** `kb` shows the value in KB: the two fields without suffix rounded up to whole KB, any other
      byte field to the nearest millionth, of two to the even one. Values without a number stay. */
  ghost predicate ShowsKb(field: string, v: Json, kb: Json) {
    && (forall number | HasNumber(v, number) ::
          && kb.Num?
          && if field == "sum_gl2_accounted_message_size" || field == "max_gl2_accounted_message_size" then
               kb.number == kb.number.Floor as real && kb.number - 1.0 < number / 1024.0 <= kb.number
             else
               var exactly, rounded := number / 1024.0 * 1000000.0, kb.number * 1000000.0;
               && rounded == rounded.Floor as real && rounded - 0.5 <= exactly <= rounded + 0.5
               && (exactly == rounded - 0.5 || exactly == rounded + 0.5 ==> rounded.Floor % 2 == 0))
    && ((forall number :: !HasNumber(v, number)) ==> kb == v)
  }

  lemma CellShowsKb(field: string, v: Json)
    ensures IsByteField(field) ==> ShowsKb(field, v, CellToKb(field, v))
    ensures !IsByteField(field) ==> CellToKb(field, v) == v
  {
    if IsByteField(field) {
      forall number | HasNumber(v, number)
        ensures CellToKb(field, v) == Num(KbNumber(number, WithoutSuffix(field)))
      {
      }
      forall number | HasNumber(v, number)
        ensures ShowsKb(field, v, CellToKb(field, v))
      {
        if WithoutSuffix(field) {
          CeilIff(number / 1024.0, Ceil(number / 1024.0));
        } else {
          var rounded := HalfEven(number / 1024.0 * 1000000.0);
          HalfEvenIff(number / 1024.0 * 1000000.0, rounded);
          assert rounded as real / 1000000.0 * 1000000.0 == rounded as real;
        }
      }
      if forall number :: !HasNumber(v, number) {
        NoNumberStays(field, v);
      }
    }
  }

  lemma NoNumberStays(field: string, v: Json)
    requires forall number :: !HasNumber(v, number)
    ensures CellToKb(field, v) == v
  {
    match v {
      case Num(n) => assert HasNumber(v, n);
      case Str(_, Some(n)) => assert HasNumber(v, n);
      case _ =>
    }
  }

  // ------------------------------------------------------------------ dictionaries

  /** What becomes of a member: queries stay as they are, a byte field is shown in KB under its
      converted name, and anything else is converted with the columns listed for it. */
  ghost predicate MemberConverted(e: Entry, columns: Option<Json>, after: seq<Entry>) {
    if e.key == "queries" then Lookup(after, e.key) == Some(e.value)
    else if IsByteField(e.key) then Lookup(after, KbName(e.key)) == Some(CellToKb(e.key, e.value))
    else
      var names := if columns.Some? && columns.value.Obj? then ColumnNames(Lookup(columns.value.entries, e.key)) else [];
      Lookup(after, e.key) == Some(Convert(e.value, names))
  }

  lemma WrittenMember(e: Entry, columns: Option<Json>, section: Option<seq<Entry>>, after: seq<Entry>)
    requires section == (if columns.Some? && columns.value.Obj? then Some(columns.value.entries) else None)
    requires ConvertMember(e.key, e.value, section).Some?
    requires Lookup(after, KbName(e.key)) == Some(ConvertMember(e.key, e.value, section).value.value)
    ensures MemberConverted(e, columns, after)
  {
    ReservedArePlain();
  }

  /** Where converted names stay distinct, this is so of every member of a report dictionary but
      the column dictionary. */
  lemma MemberOfReport(entries: seq<Entry>, i: nat)
    requires DistinctNames(entries) && i < |entries| && !(entries[i].key == "columns" && entries[i].value.Obj?)
    ensures MemberConverted(entries[i], Lookup(entries, "columns"), Convert(Obj(entries), []).entries)
  {
    SectionIsObj(entries, i);
    MemberWritten(entries, i);
    WrittenMember(entries[i], Lookup(entries, "columns"), SectionColumns(entries), Convert(Obj(entries), []).entries);
  }

  lemma SectionIsObj(entries: seq<Entry>, i: nat)
    requires DistinctNames(entries) && i < |entries| && !(entries[i].key == "columns" && entries[i].value.Obj?)
    ensures ConvertMember(entries[i].key, entries[i].value, SectionColumns(entries)).Some?
  {
    LookupAt(entries, i);
  }

  /** The column dictionary comes first, with the names in it converted. */
  lemma ColumnsComeFirst(entries: seq<Entry>, columns: seq<Entry>)
    requires Lookup(entries, "columns") == Some(Obj(columns))
    ensures var after := Convert(Obj(entries), []).entries;
            after != [] && after[0] == Entry("columns", ColumnsToKb(Obj(columns)))
  {
    var section := SectionColumns(entries);
    var writes := Header(section) + MemberWrites(entries, section);
    ColumnsMembers(entries, section);
    HeaderStays(Header(section)[0].value, MemberWrites(entries, section));
    FirstStays(writes);
    CollectKeys(writes);
    LookupAt(Collect(writes), 0);
  }

  /** And nothing else is there. */
  lemma OnlyMembers(entries: seq<Entry>)
    ensures var after := Convert(Obj(entries), []).entries;
            DistinctKeys(after) && forall j | 0 <= j < |after| :: exists i :: 0 <= i < |entries| && after[j].key == KbName(entries[i].key)
  {
    var section := SectionColumns(entries);
    var header, members := Header(section), MemberWrites(entries, section);
    var after := Collect(header + members);
    CollectKeys(header + members);
    forall j | 0 <= j < |after|
      ensures exists i :: 0 <= i < |entries| && after[j].key == KbName(entries[i].key)
    {
      var n :| 0 <= n < |header + members| && (header + members)[n] == Some(after[j]);
      if n < |header| {
        var i := LookupIsEntry(entries, "columns");
        ReservedArePlain();
        assert (header + members)[n] == header[n];
        assert after[j].key == KbName(entries[i].key);
      } else {
        var i := n - |header|;
        assert (header + members)[n] == members[i];
        MemberKey(entries[i].key, entries[i].value, section);
        assert after[j].key == KbName(entries[i].key);
      }
    }
  }

  /** A dictionary that is a row of a section: a byte field in KB, anything else converted as a
      report of its own, "queries" and "columns" included. */
  lemma MemberOfRow(entries: seq<Entry>, columns: seq<string>, i: nat)
    requires DistinctNames(entries) && i < |entries|
    ensures ConvertRow(Obj(entries), columns).Obj?
    ensures var key, child, after := entries[i].key, entries[i].value, ConvertRow(Obj(entries), columns).entries;
            if IsByteField(key) then Lookup(after, KbName(key)) == Some(CellToKb(key, child))
            else Lookup(after, key) == Some(Convert(child, []))
  {
    DictMemberWritten(entries, i);
  }

  // ------------------------------------------------------------------ lists

  /** A row of cells: those of byte columns in KB, all others and those beyond the columns as they
      are. */
  lemma CellOfRow(cells: seq<Json>, columns: seq<string>, i: nat)
    requires i < |cells|
    ensures ConvertRow(Arr(cells), columns).Arr? && |ConvertRow(Arr(cells), columns).items| == |cells|
    ensures var cell := ConvertRow(Arr(cells), columns).items[i];
            if i < |columns| && IsByteField(columns[i]) then ShowsKb(columns[i], cells[i], cell) else cell == cells[i]
  {
    if i < |columns| {
      CellShowsKb(columns[i], cells[i]);
    }
  }

  // ------------------------------------------------------------------ reading

  /** Going down the path from the report one comes through these values. */
  ghost predicate Descends(path: seq<string>, values: seq<Json>) {
    |values| == |path| + 1 && forall i | 0 <= i < |path| :: Child(values[i], path[i], values[i + 1])
  }

  ghost predicate Child(v: Json, key: string, child: Json) {
    v.Obj? && Lookup(v.entries, key) == Some(child)
  }

  /** The rows at the end of a path, with the column names listed for the last key in the
      dictionary that holds them. */
  lemma {:induction false} SectionOnPath(path: seq<string>, values: seq<Json>)
    requires path != [] && Descends(path, values) && values[|path|].Arr?
    ensures var holder := values[|path| - 1].entries;
            SectionRows(values[0], path) ==
            match Lookup(holder, "columns")
            case None => Some(Section(values[|path|].items, []))
            case Some(Obj(columns)) => Some(Section(values[|path|].items, ColumnNames(Lookup(columns, path[|path| - 1]))))
            case Some(_) => None
  {
    assert Child(values[0], path[0], values[1]);
    if |path| > 1 {
      forall i | 0 <= i < |path| - 1
        ensures Child(values[1..][i], path[1..][i], values[1..][i + 1])
      {
        assert Child(values[i + 1], path[i + 1], values[i + 2]);
      }
      SectionOnPath(path[1..], values[1..]);
    }
  }

  lemma {:induction false} OversizedMember(rows: seq<Json>, columns: seq<string>, name: string, threshold: int, row: Json)
    ensures row in Oversized(rows, columns, name, threshold) <==> row in rows && NumberValue(RowValue(row, columns, name)) > threshold as real
  {
    if rows != [] {
      OversizedMember(rows[1..], columns, name, threshold, row);
      assert rows == [rows[0]] + rows[1..];
    }
  }

  /** The check keeps a row exactly if its number exceeds the threshold, in order. */
  lemma OversizedIff(rows: seq<Json>, columns: seq<string>, name: string, threshold: int, row: Json)
    ensures row in Oversized(rows, columns, name, threshold) <==>
            row in rows && exists number :: number > threshold as real && HasCount(RowValue(row, columns, name), number)
  {
    OversizedMember(rows, columns, name, threshold, row);
    var v := RowValue(row, columns, name);
    CountIsNumberValue(v);
    assert HasCount(v, NumberValue(v));
  }

  /** What a cell counts as: its number, true as one, and anything without a number as zero. */
  ghost predicate HasCount(v: Json, number: real) {
    || HasNumber(v, number) || (v == Bool(true) && number == 1.0)
    || ((forall n :: !HasNumber(v, n)) && v != Bool(true) && number == 0.0)
  }

  lemma CountIsNumberValue(v: Json)
    ensures forall number :: HasCount(v, number) <==> number == NumberValue(v)
  {
    match v {
      case Num(n) => assert HasNumber(v, n);
      case Str(_, Some(n)) => assert HasNumber(v, n);
      case _ =>
    }
  }

  lemma {:induction false} OversizedKeepsOrder(a: seq<Json>, b: seq<Json>, columns: seq<string>, name: string, threshold: int)
    ensures Oversized(a + b, columns, name, threshold) == Oversized(a, columns, name, threshold) + Oversized(b, columns, name, threshold)
  {
    if a == [] {
      assert a + b == b;
    } else {
      OversizedKeepsOrder(a[1..], b, columns, name, threshold);
      assert (a + b)[1..] == a[1..] + b;
      Associative(OversizedOne(a[0], columns, name, threshold), Oversized(a[1..], columns, name, threshold), Oversized(b, columns, name, threshold));
    }
  }
}
