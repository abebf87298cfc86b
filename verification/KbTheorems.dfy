/** What the KB conversion of a report keeps: a converted cell is read under its converted name,
    a second conversion changes nothing, and the large-message checks are exact in bytes. */
module KbTheorems {
  import opened Wrappers
  import opened KbConversion

  // ------------------------------------------------------------------ names

  lemma KbNameIsFinal(field: string)
    ensures !IsByteField(KbName(field))
    ensures IsByteField(field) ==> EndsWith(KbName(field), "_kb")
  {
    var name := KbName(field);
    if IsByteField(field) {
      KbSuffix(if WithoutSuffix(field) then field else field[..|field| - 6]);
    }
  }

  lemma KbSuffix(stem: string)
    ensures EndsWith(stem + "_kb", "_kb") && !IsByteField(stem + "_kb")
  {
    var name := stem + "_kb";
    assert name[|name| - 3..] == "_kb";
    assert name[|name| - 1] == 'b';
    assert SUM_FIELD[|SUM_FIELD| - 1] == 'e' && MAX_FIELD[|MAX_FIELD| - 1] == 'e';
    assert "_bytes"[5] == 's';
  }

  /** A key that no other key turns into. */
  predicate Plain(key: string) {
    !IsByteField(key) && !EndsWith(key, "_kb")
  }

  lemma PlainComesFromItself(key: string, from: string)
    requires Plain(key) && KbName(from) == key
    ensures from == key
  {
    KbNameIsFinal(from);
  }

  lemma ReservedArePlain()
    ensures Plain("columns") && Plain("queries") && "columns" != "queries"
  {
    assert "columns"[0] != "queries"[0];
    assert !EndsWith("columns", "_bytes") && !EndsWith("queries", "_bytes");
    assert "columns"[4..][0] == 'm' && "queries"[4..][0] == 'i';
    assert !EndsWith("columns", "_kb") && !EndsWith("queries", "_kb");
  }

  // ------------------------------------------------------------------ dictionaries

  lemma {:induction false} LookupPut(entries: seq<Entry>, e: Entry, key: string)
    ensures Lookup(Put(entries, e), key) == if key == e.key then Some(e.value) else Lookup(entries, key)
  {
    if entries != [] && entries[0].key != e.key {
      LookupPut(entries[1..], e, key);
    }
  }

  /** The last write to a key. */
  function LastWrite(writes: seq<Option<Entry>>, key: string): Option<Json> {
    if writes == [] then None else
    var last := writes[|writes| - 1];
    if last.Some? && last.value.key == key then Some(last.value.value) else LastWrite(writes[..|writes| - 1], key)
  }

  lemma {:induction false} LookupCollect(writes: seq<Option<Entry>>, key: string)
    ensures Lookup(Collect(writes), key) == LastWrite(writes, key)
  {
    if writes != [] {
      var init, last := writes[..|writes| - 1], writes[|writes| - 1];
      LookupCollect(init, key);
      if last.Some? {
        LookupPut(Collect(init), last.value, key);
      }
    }
  }

  predicate Writes(w: Option<Entry>, key: string) {
    w.Some? && w.value.key == key
  }

  lemma {:induction false} NoWrite(writes: seq<Option<Entry>>, key: string)
    requires forall i | 0 <= i < |writes| :: !Writes(writes[i], key)
    ensures LastWrite(writes, key) == None
  {
    if writes != [] {
      assert !Writes(writes[|writes| - 1], key);
      NoWrite(writes[..|writes| - 1], key);
    }
  }

  lemma {:induction false} OnlyWrite(writes: seq<Option<Entry>>, i: nat, key: string)
    requires i < |writes| && Writes(writes[i], key)
    requires forall j | 0 <= j < |writes| && j != i :: !Writes(writes[j], key)
    ensures Lookup(Collect(writes), key) == Some(writes[i].value.value)
  {
    LookupCollect(writes, key);
    OnlyLastWrite(writes, i, key);
  }

  lemma {:induction false} OnlyLastWrite(writes: seq<Option<Entry>>, i: nat, key: string)
    requires i < |writes| && Writes(writes[i], key)
    requires forall j | 0 <= j < |writes| && j != i :: !Writes(writes[j], key)
    ensures LastWrite(writes, key) == Some(writes[i].value.value)
  {
    if i < |writes| - 1 {
      assert !Writes(writes[|writes| - 1], key);
      OnlyLastWrite(writes[..|writes| - 1], i, key);
    }
  }

  lemma {:induction false} LookupIsEntry(entries: seq<Entry>, key: string) returns (i: nat)
    requires Lookup(entries, key).Some?
    ensures i < |entries| && entries[i] == Entry(key, Lookup(entries, key).value)
  {
    if entries[0].key == key {
      i := 0;
    } else {
      i := LookupIsEntry(entries[1..], key);
      i := i + 1;
    }
  }

  lemma {:induction false} LookupMisses(entries: seq<Entry>, key: string)
    ensures Lookup(entries, key) == None <==> forall i | 0 <= i < |entries| :: entries[i].key != key
  {
    if entries != [] {
      LookupMisses(entries[1..], key);
      if forall i | 0 <= i < |entries| :: entries[i].key != key {
        assert forall i | 0 <= i < |entries[1..]| :: entries[1..][i].key == entries[i + 1].key;
      } else if forall i | 0 <= i < |entries[1..]| :: entries[1..][i].key != key {
        assert forall i | 1 <= i < |entries| :: entries[i] == entries[1..][i - 1];
      }
    }
  }

  lemma {:induction false} PutKeys(entries: seq<Entry>, e: Entry)
    requires DistinctKeys(entries)
    ensures DistinctKeys(Put(entries, e))
    ensures forall i | 0 <= i < |Put(entries, e)| :: Put(entries, e)[i] == e || Put(entries, e)[i] in entries
  {
    if entries != [] && entries[0].key != e.key {
      PutKeys(entries[1..], e);
      var rest := Put(entries[1..], e);
      forall j | 0 <= j < |rest|
        ensures rest[j].key != entries[0].key
      {
        if rest[j] != e {
          assert rest[j] in entries[1..];
        }
      }
    }
  }

  /** A collected dictionary has distinct keys, and each entry was written. */
  lemma {:induction false} CollectKeys(writes: seq<Option<Entry>>)
    ensures DistinctKeys(Collect(writes))
    ensures forall i | 0 <= i < |Collect(writes)| :: Some(Collect(writes)[i]) in writes
  {
    if writes != [] {
      var init, last := writes[..|writes| - 1], writes[|writes| - 1];
      CollectKeys(init);
      if last.Some? {
        PutKeys(Collect(init), last.value);
      }
    }
  }

  lemma {:induction false} PutNew(entries: seq<Entry>, e: Entry)
    requires forall i | 0 <= i < |entries| :: entries[i].key != e.key
    ensures Put(entries, e) == entries + [e]
  {
    if entries != [] {
      PutNew(entries[1..], e);
    }
  }

  /** Writing the entries of a dictionary one by one gives it back. */
  lemma {:induction false} CollectBack(entries: seq<Entry>, writes: seq<Option<Entry>>)
    requires DistinctKeys(entries) && |writes| == |entries|
    requires forall i | 0 <= i < |entries| :: writes[i] == Some(entries[i])
    ensures Collect(writes) == entries
  {
    if entries != [] {
      var init := entries[..|entries| - 1];
      CollectBack(init, writes[..|writes| - 1]);
      PutNew(init, entries[|entries| - 1]);
      assert entries == init + [entries[|entries| - 1]];
    }
  }

  /** The same where the first entry is written ahead and skipped in its turn. */
  lemma {:induction false} CollectBackSkipping(entries: seq<Entry>, writes: seq<Option<Entry>>)
    requires DistinctKeys(entries) && entries != [] && |writes| == |entries| + 1
    requires writes[0] == Some(entries[0]) && writes[1] == None
    requires forall i | 1 <= i < |entries| :: writes[i + 1] == Some(entries[i])
    ensures Collect(writes) == entries
  {
    var last := writes[..|writes| - 1];
    if |entries| == 1 {
      assert last == [writes[0]] && last[..0] == [];
      assert Collect(last) == Put(Collect(last[..0]), entries[0]);
    } else {
      var init := entries[..|entries| - 1];
      CollectBackSkipping(init, last);
      PutNew(init, entries[|entries| - 1]);
      assert entries == init + [entries[|entries| - 1]];
    }
  }

  lemma {:induction false} FirstStays(writes: seq<Option<Entry>>)
    requires writes != [] && writes[0].Some?
    ensures Collect(writes) != [] && Collect(writes)[0].key == writes[0].value.key
  {
    if |writes| > 1 {
      FirstStays(writes[..|writes| - 1]);
    } else {
      assert writes[..0] == [];
    }
  }

  // ------------------------------------------------------------------ converting twice

  /** Python dictionaries throughout: every one has distinct keys. */
  predicate WellKeyed(v: Json) {
    match v
    case Arr(items) => forall i | 0 <= i < |items| :: WellKeyed(items[i])
    case Obj(entries) => DistinctKeys(entries) && forall i | 0 <= i < |entries| :: WellKeyed(entries[i].value)
    case _ => true
  }

  /** And scalars under the byte-named keys. */
  predicate Tidy(v: Json) {
    match v
    case Arr(items) => forall i | 0 <= i < |items| :: Tidy(items[i])
    case Obj(entries) =>
      && DistinctKeys(entries)
      && forall i | 0 <= i < |entries| :: (IsByteField(entries[i].key) ==> Scalar(entries[i].value)) && Tidy(entries[i].value)
    case _ => true
  }

  // What follows mirrors the walk of the conversion.

  /** There is nothing to convert: no byte-named key on the way, no number in a byte column, no
      byte column named, and the columns of a section already stand first. */
  predicate Inert(v: Json, columns: seq<string>)
    decreases v, 1
  {
    match v
    case Arr(items) =>
      forall i | 0 <= i < |items| :: if columns == [] then Inert(items[i], []) else InertRow(items[i], columns)
    case Obj(entries) =>
      var section := SectionColumns(entries);
      && (section.Some? ==> InertSection(entries, section.value))
      && forall i | 0 <= i < |entries| :: InertMember(entries[i].key, entries[i].value, section)
    case _ => true
  }

  predicate InertSection(entries: seq<Entry>, columns: seq<Entry>) {
    entries != [] && entries[0].key == "columns" && ColumnsToKb(Obj(columns)) == Obj(columns)
  }

  predicate InertMember(key: string, child: Json, section: Option<seq<Entry>>)
    decreases child, 2
  {
    || (section.Some? && key == "columns")
    || key == "queries"
    || (!IsByteField(key) && Inert(child, ChildColumns(section, key)))
  }

  predicate InertRow(row: Json, columns: seq<string>)
    decreases row, 2
  {
    match row
    case Obj(_) => InertDict(row)
    case Arr(cells) => ConvertCells(cells, columns) == cells
    case _ => true
  }

  predicate InertDict(row: Json)
    requires row.Obj?
    decreases row, 1
  {
    forall i | 0 <= i < |row.entries| :: !IsByteField(row.entries[i].key) && Inert(row.entries[i].value, [])
  }

  /** A second conversion finds nothing to do: what stands under a byte-named key is inert, since
      the first conversion passes over it and renames the key. Scalars always are. */
  predicate Settles(v: Json, columns: seq<string>)
    decreases v, 1
  {
    match v
    case Arr(items) =>
      forall i | 0 <= i < |items| :: if columns == [] then Settles(items[i], []) else SettlesRow(items[i], columns)
    case Obj(entries) =>
      forall i | 0 <= i < |entries| :: SettlesMember(entries[i].key, entries[i].value, SectionColumns(entries))
    case _ => true
  }

  predicate SettlesMember(key: string, child: Json, section: Option<seq<Entry>>)
    decreases child, 2
  {
    || (section.Some? && key == "columns")
    || key == "queries"
    || (if IsByteField(key) then Inert(child, ChildColumns(KbSection(section), KbName(key)))
        else Settles(child, ChildColumns(section, key)))
  }

  predicate SettlesRow(row: Json, columns: seq<string>)
    decreases row, 2
  {
    row.Obj? ==> SettlesDict(row)
  }

  predicate SettlesDict(row: Json)
    requires row.Obj?
    decreases row, 1
  {
    forall i | 0 <= i < |row.entries| ::
      if IsByteField(row.entries[i].key) then Inert(row.entries[i].value, []) else Settles(row.entries[i].value, [])
  }

  lemma {:induction false} ColumnsTwice(columns: Json)
    ensures ColumnsToKb(ColumnsToKb(columns)) == ColumnsToKb(columns)
  {
    match columns
    case Arr(items) =>
      forall i | 0 <= i < |items|
        ensures ColumnToKb(ColumnToKb(items[i])) == ColumnToKb(items[i])
      {
        if items[i].Str? {
          KbNameIsFinal(items[i].text);
        }
      }
    case Obj(entries) =>
      forall i | 0 <= i < |entries|
        ensures ColumnsToKb(ColumnsToKb(entries[i].value)) == ColumnsToKb(entries[i].value)
      {
        ColumnsTwice(entries[i].value);
      }
    case _ =>
  }

  lemma {:induction false} LookupColumns(entries: seq<Entry>, key: string)
    ensures Lookup(ColumnsToKb(Obj(entries)).entries, key)
            == match Lookup(entries, key) case Some(v) => Some(ColumnsToKb(v)) case None => None
  {
    if entries != [] {
      LookupColumns(entries[1..], key);
      assert ColumnsToKb(Obj(entries)).entries[1..] == ColumnsToKb(Obj(entries[1..])).entries;
    }
  }

  /** The names in a converted column list are the converted names. */
  lemma NamesOfConverted(columns: Option<Json>)
    ensures ColumnNames(match columns case Some(v) => Some(ColumnsToKb(v)) case None => None) == KbNames(ColumnNames(columns))
  {
    NoName();
    if columns.Some? && columns.value.Arr? {
      var items := columns.value.items;
      forall i | 0 <= i < |items|
        ensures (if ColumnToKb(items[i]).Str? then ColumnToKb(items[i]).text else "")
                == KbName(if items[i].Str? then items[i].text else "")
      {
      }
    }
  }

  lemma NoName()
    ensures KbName("") == ""
  {
  }

  /** The column names a child is converted with. */
  function ChildColumns(section: Option<seq<Entry>>, key: string): seq<string> {
    if section.Some? then ColumnNames(Lookup(section.value, key)) else []
  }

  function KbSection(section: Option<seq<Entry>>): Option<seq<Entry>> {
    if section.Some? then Some(ColumnsToKb(Obj(section.value)).entries) else None
  }

  lemma ChildColumnsConverted(section: Option<seq<Entry>>, key: string)
    ensures ChildColumns(KbSection(section), key) == KbNames(ChildColumns(section, key))
  {
    if section.Some? {
      LookupColumns(section.value, key);
      NamesOfConverted(Lookup(section.value, key));
    }
  }

  lemma ScalarsStay(v: Json, columns: seq<string>, field: string)
    requires Scalar(v)
    ensures Convert(v, columns) == v && Scalar(CellToKb(field, v)) && Scalar(BytesToKb(v, WithoutSuffix(field)))
  {
  }

  /** Converting an inert value leaves it as it is. */
  lemma {:induction false} InertStays(v: Json, columns: seq<string>)
    requires WellKeyed(v) && Inert(v, columns)
    ensures Convert(v, columns) == v
    decreases v, 1
  {
    match v
    case Arr(items) =>
      forall i | 0 <= i < |items|
        ensures (if columns == [] then Convert(items[i], []) else ConvertRow(items[i], columns)) == items[i]
      {
        if columns == [] {
          InertStays(items[i], []);
        } else {
          InertRowStays(items[i], columns);
        }
      }
    case Obj(entries) =>
      var section := SectionColumns(entries);
      forall i | 0 <= i < |entries| && !(section.Some? && entries[i].key == "columns")
        ensures ConvertMember(entries[i].key, entries[i].value, section) == Some(entries[i])
      {
        assert InertMember(entries[i].key, entries[i].value, section);
        if entries[i].key != "queries" {
          InertStays(entries[i].value, ChildColumns(section, entries[i].key));
        }
      }
      WritesItself(entries);
    case _ =>
  }

  lemma {:induction false} InertRowStays(row: Json, columns: seq<string>)
    requires WellKeyed(row) && InertRow(row, columns)
    ensures ConvertRow(row, columns) == row
    decreases row, 2
  {
    if row.Obj? {
      InertDictStays(row);
    }
  }

  lemma {:induction false} InertDictStays(row: Json)
    requires row.Obj? && WellKeyed(row) && InertDict(row)
    ensures ConvertDict(row) == row
    decreases row, 1
  {
    forall i | 0 <= i < |row.entries|
      ensures DictWrites(row.entries)[i] == Some(row.entries[i])
    {
      InertStays(row.entries[i].value, []);
    }
    CollectBack(row.entries, DictWrites(row.entries));
  }

  /** A dictionary whose members are all written as they are. */
  lemma WritesItself(entries: seq<Entry>)
    requires DistinctKeys(entries)
    requires var section := SectionColumns(entries);
             && (section.Some? ==> InertSection(entries, section.value))
             && forall i | 0 <= i < |entries| && !(section.Some? && entries[i].key == "columns") ::
                  ConvertMember(entries[i].key, entries[i].value, section) == Some(entries[i])
    ensures Convert(Obj(entries), []) == Obj(entries)
  {
    var section := SectionColumns(entries);
    var members := MemberWrites(entries, section);
    if section.Some? {
      assert Lookup(entries, "columns") == Some(entries[0].value);
      assert Header(section) == [Some(entries[0])];
      FirstIsSkipped(entries, section);
      WrittenAhead(entries, entries[0], members);
    } else {
      assert Header(section) + members == members;
      CollectBack(entries, members);
    }
  }

  lemma FirstIsSkipped(entries: seq<Entry>, section: Option<seq<Entry>>)
    requires DistinctKeys(entries) && entries != [] && section.Some? && entries[0].key == "columns"
    requires forall i | 0 <= i < |entries| && entries[i].key != "columns" ::
               ConvertMember(entries[i].key, entries[i].value, section) == Some(entries[i])
    ensures MemberWrites(entries, section)[0] == None
    ensures forall i | 1 <= i < |entries| :: MemberWrites(entries, section)[i] == Some(entries[i])
  {
    forall i | 1 <= i < |entries|
      ensures MemberWrites(entries, section)[i] == Some(entries[i])
    {
      assert entries[i].key != entries[0].key;
    }
  }

  lemma {:induction false} WrittenAhead(entries: seq<Entry>, first: Entry, members: seq<Option<Entry>>)
    requires DistinctKeys(entries) && entries != [] && entries[0] == first && |members| == |entries| && members[0] == None
    requires forall i | 1 <= i < |entries| :: members[i] == Some(entries[i])
    ensures Collect([Some(first)] + members) == entries
  {
    CollectBackSkipping(entries, [Some(first)] + members);
  }

  /** One written entry is left alone the second time. */
  lemma MemberTwice(key: string, child: Json, section: Option<seq<Entry>>)
    requires section.Some? ==> key != "columns"
    requires IsByteField(key) && !Scalar(child) ==> Convert(child, ChildColumns(KbSection(section), KbName(key))) == child
    requires !IsByteField(key) && key != "queries" ==>
               Convert(Convert(child, ChildColumns(section, key)), KbNames(ChildColumns(section, key))) == Convert(child, ChildColumns(section, key))
    ensures var e := ConvertMember(key, child, section);
            e.Some? && ConvertMember(e.value.key, e.value.value, KbSection(section)) == e
  {
    ReservedArePlain();
    if key == "queries" {
    } else if IsByteField(key) {
      ByteMemberTwice(key, child, section);
    } else {
      ChildColumnsConverted(section, key);
      var columns := ChildColumns(section, key);
      assert ConvertMember(key, child, section) == Some(Entry(key, Convert(child, columns)));
    }
  }

  lemma ByteMemberTwice(key: string, child: Json, section: Option<seq<Entry>>)
    requires IsByteField(key)
    requires !Scalar(child) ==> Convert(child, ChildColumns(KbSection(section), KbName(key))) == child
    ensures var e := ConvertMember(key, child, section);
            e.Some? && ConvertMember(e.value.key, e.value.value, KbSection(section)) == e
  {
    var name, value := KbName(key), BytesToKb(child, WithoutSuffix(key));
    ReservedArePlain();
    KbNameIsFinal(key);
    assert ConvertMember(key, child, section) == Some(Entry(name, value));
    if Scalar(child) {
      ScalarsStay(child, [], key);
      ScalarsStay(value, ChildColumns(KbSection(section), name), name);
    }
    assert name != "columns" && name != "queries";
    assert ConvertMember(name, value, KbSection(section))
        == Some(Entry(name, Convert(value, ChildColumns(KbSection(section), name))));
  }

  predicate MemberSettled(entries: seq<Entry>, i: nat)
    requires i < |entries|
  {
    var section := SectionColumns(entries);
    var e := ConvertMember(entries[i].key, entries[i].value, section);
    e.Some? ==> ConvertMember(e.value.key, e.value.value, KbSection(section)) == e
  }

  lemma MemberKey(key: string, child: Json, section: Option<seq<Entry>>)
    ensures ConvertMember(key, child, section).Some? <==> !(section.Some? && key == "columns")
    ensures ConvertMember(key, child, section).Some? ==> ConvertMember(key, child, section).value.key == KbName(key)
    ensures KbName(key) == "columns" <==> key == "columns"
  {
    ReservedArePlain();
    KbNameIsFinal(key);
  }

  /** Every write of a member has the member's name. */
  ghost predicate Named(members: seq<Option<Entry>>, names: seq<string>) {
    |members| == |names| && forall m | 0 <= m < |members| && members[m].Some? :: members[m].value.key == names[m]
  }

  /** With distinct names none is overwritten. */
  lemma FoundByName(header: seq<Option<Entry>>, members: seq<Option<Entry>>, names: seq<string>, i: nat)
    requires Named(members, names) && i < |members| && members[i].Some?
    requires forall m | 0 <= m < |names| && m != i :: names[m] != names[i]
    requires forall h | 0 <= h < |header| :: !Writes(header[h], names[i])
    ensures Lookup(Collect(header + members), names[i]) == Some(members[i].value.value)
  {
    var writes, at := header + members, |header| + i;
    forall j | 0 <= j < |writes| && j != at
      ensures !Writes(writes[j], names[i])
    {
      if j < |header| {
        assert writes[j] == header[j];
      } else {
        assert writes[j] == members[j - |header|];
      }
    }
    assert writes[at] == members[i];
    OnlyWrite(writes, at, names[i]);
  }

  lemma MembersNamed(entries: seq<Entry>, section: Option<seq<Entry>>)
    ensures Named(MemberWrites(entries, section), KeyNames(entries))
  {
    var members := MemberWrites(entries, section);
    forall m | 0 <= m < |members| && members[m].Some?
      ensures members[m].value.key == KeyNames(entries)[m]
    {
      MemberKey(entries[m].key, entries[m].value, section);
    }
  }

  function KeyNames(entries: seq<Entry>): (r: seq<string>)
    ensures |r| == |entries|
  {
    seq(|entries|, i requires 0 <= i < |entries| => KbName(entries[i].key))
  }

  lemma NotFoundByName(header: seq<Option<Entry>>, members: seq<Option<Entry>>, names: seq<string>, name: string)
    requires Named(members, names) && name !in names
    requires forall h | 0 <= h < |header| :: !Writes(header[h], name)
    ensures Lookup(Collect(header + members), name) == None
  {
    var writes := header + members;
    forall j | 0 <= j < |writes|
      ensures !Writes(writes[j], name)
    {
      if j < |header| {
        assert writes[j] == header[j];
      } else {
        assert writes[j] == members[j - |header|];
      }
    }
    NoWrite(writes, name);
    LookupCollect(writes, name);
  }

  lemma HeaderStays(header: Entry, members: seq<Option<Entry>>)
    requires forall i | 0 <= i < |members| :: !Writes(members[i], header.key)
    ensures Lookup(Collect([Some(header)] + members), header.key) == Some(header.value)
  {
    var writes := [Some(header)] + members;
    forall j | 0 <= j < |writes| && j != 0
      ensures !Writes(writes[j], header.key)
    {
      assert writes[j] == members[j - 1];
    }
    OnlyWrite(writes, 0, header.key);
  }

  lemma ColumnsMembers(entries: seq<Entry>, section: Option<seq<Entry>>)
    ensures forall i | 0 <= i < |entries| ::
              Writes(MemberWrites(entries, section)[i], "columns") ==> section.None? && entries[i].key == "columns"
  {
    forall i | 0 <= i < |entries|
      ensures Writes(MemberWrites(entries, section)[i], "columns") ==> section.None? && entries[i].key == "columns"
    {
      ColumnsMember(entries[i].key, entries[i].value, section);
    }
  }

  /** Without a column dictionary before there is none after. */
  lemma SectionStays(entries: seq<Entry>)
    requires DistinctKeys(entries)
    ensures SectionColumns(Convert(Obj(entries), []).entries) == KbSection(SectionColumns(entries))
  {
    var section := SectionColumns(entries);
    ColumnsMembers(entries, section);
    if section.Some? {
      HeaderStays(Entry("columns", ColumnsToKb(Obj(section.value))), MemberWrites(entries, section));
    } else {
      NoSectionStays(entries, MemberWrites(entries, None));
      assert Header(None) + MemberWrites(entries, None) == MemberWrites(entries, None);
    }
  }

  lemma NoSectionStays(entries: seq<Entry>, members: seq<Option<Entry>>)
    requires DistinctKeys(entries) && SectionColumns(entries).None? && members == MemberWrites(entries, None)
    requires forall i | 0 <= i < |entries| :: Writes(members[i], "columns") ==> entries[i].key == "columns"
    ensures SectionColumns(Collect(members)).None?
  {
    if Lookup(entries, "columns").Some? {
      var i := LookupIsEntry(entries, "columns");
      var value := entries[i].value;
      ReservedArePlain();
      assert members[i] == ConvertMember("columns", value, None) == Some(Entry("columns", Convert(value, [])));
      OnlyWrite(members, i, "columns");
    } else {
      LookupMisses(entries, "columns");
      NoWrite(members, "columns");
      LookupCollect(members, "columns");
    }
  }

  lemma ColumnsMember(key: string, child: Json, section: Option<seq<Entry>>)
    ensures Writes(ConvertMember(key, child, section), "columns") ==> section.None? && key == "columns"
  {
    ReservedArePlain();
    if Writes(ConvertMember(key, child, section), "columns") {
      PlainComesFromItself("columns", key);
    }
  }

  /** An entry of the result, other than the column dictionary, is written again as it is. */
  lemma WrittenAgain(entries: seq<Entry>, e: Entry)
    requires forall i | 0 <= i < |entries| :: MemberSettled(entries, i)
    requires Some(e) in MemberWrites(entries, SectionColumns(entries))
    ensures ConvertMember(e.key, e.value, KbSection(SectionColumns(entries))) == Some(e)
  {
    var writes := MemberWrites(entries, SectionColumns(entries));
    var k :| 0 <= k < |writes| && writes[k] == Some(e);
    assert MemberSettled(entries, k);
  }

  function Writing(entries: seq<Entry>): seq<Option<Entry>> {
    Header(SectionColumns(entries)) + MemberWrites(entries, SectionColumns(entries))
  }

  lemma ResultWrittenAgain(entries: seq<Entry>, i: nat)
    requires forall k | 0 <= k < |entries| :: MemberSettled(entries, k)
    requires |Header(SectionColumns(entries))| <= i < |Collect(Writing(entries))|
    ensures var out := Collect(Writing(entries));
            MemberWrites(out, KbSection(SectionColumns(entries)))[i] == Some(out[i])
  {
    var section, out := SectionColumns(entries), Collect(Writing(entries));
    CollectKeys(Writing(entries));
    if section.Some? {
      FirstStays(Writing(entries));
      assert out[i].key != out[0].key;
    }
    assert Some(out[i]) in Writing(entries);
    assert Some(out[i]) in MemberWrites(entries, section);
    WrittenAgain(entries, out[i]);
  }

  lemma WritesBack(entries: seq<Entry>)
    requires DistinctKeys(entries)
    requires forall i | 0 <= i < |entries| :: MemberSettled(entries, i)
    ensures Convert(Convert(Obj(entries), []), []) == Convert(Obj(entries), [])
  {
    var out := Collect(Writing(entries));
    assert Convert(Obj(entries), []) == Obj(out);
    forall i | |Header(SectionColumns(entries))| <= i < |out|
      ensures MemberWrites(out, KbSection(SectionColumns(entries)))[i] == Some(out[i])
    {
      ResultWrittenAgain(entries, i);
    }
    CollectKeys(Writing(entries));
    SectionStays(entries);
    ResultBack(SectionColumns(entries), MemberWrites(entries, SectionColumns(entries)));
  }

  lemma ResultBack(section: Option<seq<Entry>>, members: seq<Option<Entry>>)
    requires var out := Collect(Header(section) + members);
             && DistinctKeys(out) && SectionColumns(out) == KbSection(section)
             && forall i | |Header(section)| <= i < |out| :: MemberWrites(out, KbSection(section))[i] == Some(out[i])
    ensures var out := Collect(Header(section) + members);
            Convert(Obj(out), []) == Obj(out)
  {
    var out := Collect(Header(section) + members);
    if section.Some? {
      assert Lookup(out, "columns").value == Obj(KbSection(section).value);
      SectionBack(section.value, members);
    } else {
      assert Header(None) + MemberWrites(out, None) == MemberWrites(out, None);
      CollectBack(out, MemberWrites(out, None));
    }
  }

  lemma SectionBack(columns: seq<Entry>, members: seq<Option<Entry>>)
    requires var section := Some(columns);
             var out := Collect(Header(section) + members);
             && DistinctKeys(out) && Lookup(out, "columns") == Some(ColumnsToKb(Obj(columns)))
             && forall i | 1 <= i < |out| :: MemberWrites(out, KbSection(section))[i] == Some(out[i])
    ensures var section := Some(columns);
            var out := Collect(Header(section) + members);
            Collect(Header(KbSection(section)) + MemberWrites(out, KbSection(section))) == out
  {
    var section := Some(columns);
    var out := Collect(Header(section) + members);
    var again := Header(KbSection(section)) + MemberWrites(out, KbSection(section));
    ColumnsTwice(Obj(columns));
    FirstStays(Header(section) + members);
    assert again[0] == Some(out[0]);
    assert MemberWrites(out, KbSection(section))[0] == ConvertMember(out[0].key, out[0].value, KbSection(section)) == None;
    assert forall i | 0 <= i < |out| :: again[i + 1] == MemberWrites(out, KbSection(section))[i];
    CollectBackSkipping(out, again);
  }

  /** Where a second conversion finds nothing to do it does nothing. */
  lemma {:induction false} SettledTwice(v: Json, columns: seq<string>)
    requires WellKeyed(v) && Settles(v, columns)
    ensures Convert(Convert(v, columns), KbNames(columns)) == Convert(v, columns)
    decreases v, 1
  {
    match v
    case Arr(items) =>
      forall i | 0 <= i < |items|
        ensures columns == [] ==> Convert(Convert(items[i], []), []) == Convert(items[i], [])
        ensures columns != [] ==> ConvertRow(ConvertRow(items[i], columns), KbNames(columns)) == ConvertRow(items[i], columns)
      {
        if columns == [] {
          SettledTwice(items[i], []);
        } else {
          RowTwice(items[i], columns);
        }
      }
    case Obj(entries) =>
      forall i | 0 <= i < |entries|
        ensures MemberSettled(entries, i)
      {
        var key, child, section := entries[i].key, entries[i].value, SectionColumns(entries);
        assert SettlesMember(key, child, section);
        if !(section.Some? && key == "columns") {
          if IsByteField(key) {
            ReservedArePlain();
            InertStays(child, ChildColumns(KbSection(section), KbName(key)));
          } else if key != "queries" {
            SettledTwice(child, ChildColumns(section, key));
          }
          MemberTwice(key, child, section);
        }
      }
      WritesBack(entries);
    case _ =>
  }

  lemma {:induction false} RowTwice(row: Json, columns: seq<string>)
    requires WellKeyed(row) && SettlesRow(row, columns)
    ensures ConvertRow(ConvertRow(row, columns), KbNames(columns)) == ConvertRow(row, columns)
    decreases row, 2
  {
    match row
    case Obj(_) => DictTwice(row);
    case Arr(cells) => CellsTwice(cells, columns);
    case _ =>
  }

  lemma CellsTwice(cells: seq<Json>, columns: seq<string>)
    ensures ConvertCells(ConvertCells(cells, columns), KbNames(columns)) == ConvertCells(cells, columns)
  {
    forall i | 0 <= i < |cells| && i < |columns|
      ensures CellToKb(KbName(columns[i]), CellToKb(columns[i], cells[i])) == CellToKb(columns[i], cells[i])
    {
      KbNameIsFinal(columns[i]);
    }
  }

  lemma {:induction false} DictTwice(row: Json)
    requires row.Obj? && WellKeyed(row) && SettlesDict(row)
    ensures ConvertDict(ConvertDict(row)) == ConvertDict(row)
    decreases row, 1
  {
    var writes := DictWrites(row.entries);
    var out := Collect(writes);
    CollectKeys(writes);
    forall i | 0 <= i < |out|
      ensures DictWrites(out)[i] == Some(out[i])
    {
      assert Some(out[i]) in writes;
      var k :| 0 <= k < |writes| && writes[k] == Some(out[i]);
      var key, child := row.entries[k].key, row.entries[k].value;
      assert writes[k] == ConvertDictMember(key, child);
      assert DictWrites(out)[i] == ConvertDictMember(out[i].key, out[i].value);
      KbNameIsFinal(key);
      if !IsByteField(key) {
        SettledTwice(child, []);
      } else if Scalar(child) {
        ScalarsStay(child, [], key);
        ScalarsStay(BytesToKb(child, WithoutSuffix(key)), [], key);
      } else {
        InertStays(child, []);
      }
    }
    CollectBack(out, DictWrites(out));
  }

  /** Scalars under the byte-named keys are enough, whatever columns the report is read with. */
  lemma {:induction false} TidySettles(v: Json, columns: seq<string>)
    requires Tidy(v)
    ensures WellKeyed(v) && Settles(v, columns) && SettlesRow(v, columns)
  {
    match v
    case Arr(items) =>
      forall i | 0 <= i < |items|
        ensures WellKeyed(items[i]) && Settles(items[i], []) && SettlesRow(items[i], columns)
      {
        TidySettles(items[i], []);
        TidySettles(items[i], columns);
      }
    case Obj(entries) =>
      forall i | 0 <= i < |entries|
        ensures WellKeyed(entries[i].value) && SettlesMember(entries[i].key, entries[i].value, SectionColumns(entries))
        ensures if IsByteField(entries[i].key) then Inert(entries[i].value, []) else Settles(entries[i].value, [])
      {
        TidySettles(entries[i].value, []);
        TidySettles(entries[i].value, ChildColumns(SectionColumns(entries), entries[i].key));
      }
    case _ =>
  }

  lemma ConvertTwice(v: Json, columns: seq<string>)
    requires Tidy(v)
    ensures Convert(Convert(v, columns), KbNames(columns)) == Convert(v, columns)
  {
    TidySettles(v, columns);
    SettledTwice(v, columns);
  }
}
