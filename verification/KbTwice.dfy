/** When exactly a report may be converted twice: for reports in whose dictionaries converted
    names stay distinct, so that no member overwrites another. */
module KbTwice {
  import opened Wrappers
  import opened KbConversion
  import opened KbTheorems

  predicate DistinctNames(entries: seq<Entry>) {
    forall i, j | 0 <= i < j < |entries| :: KbName(entries[i].key) != KbName(entries[j].key)
  }

  predicate MembersStayDistinct(v: Json) {
    match v
    case Arr(items) => forall i | 0 <= i < |items| :: MembersStayDistinct(items[i])
    case Obj(entries) => DistinctNames(entries) && forall i | 0 <= i < |entries| :: MembersStayDistinct(entries[i].value)
    case _ => true
  }

  lemma {:induction false} DistinctNamesDistinctKeys(v: Json)
    requires MembersStayDistinct(v)
    ensures WellKeyed(v)
  {
    match v
    case Arr(items) =>
      forall i | 0 <= i < |items|
        ensures WellKeyed(items[i])
      {
        DistinctNamesDistinctKeys(items[i]);
      }
    case Obj(entries) =>
      assert forall i, j | 0 <= i < j < |entries| :: KbName(entries[i].key) != KbName(entries[j].key);
      forall i | 0 <= i < |entries|
        ensures WellKeyed(entries[i].value)
      {
        DistinctNamesDistinctKeys(entries[i].value);
      }
    case _ =>
  }

  // ------------------------------------------------------------------ where a member ends up

  lemma LookupAt(entries: seq<Entry>, i: nat)
    requires DistinctKeys(entries) && i < |entries|
    ensures Lookup(entries, entries[i].key) == Some(entries[i].value)
  {
    if Lookup(entries, entries[i].key) == None {
      LookupMisses(entries, entries[i].key);
    }
    var j := LookupIsEntry(entries, entries[i].key);
    assert j == i;
  }

  lemma NamesDiffer(entries: seq<Entry>, i: nat)
    requires DistinctNames(entries) && i < |entries|
    ensures forall m | 0 <= m < |entries| && m != i :: KeyNames(entries)[m] != KeyNames(entries)[i]
  {
  }

  /** No member overwrites another: each is found under its converted name. */
  lemma MemberWritten(entries: seq<Entry>, i: nat)
    requires DistinctNames(entries) && i < |entries|
    requires ConvertMember(entries[i].key, entries[i].value, SectionColumns(entries)).Some?
    ensures var e := ConvertMember(entries[i].key, entries[i].value, SectionColumns(entries)).value;
            Lookup(Convert(Obj(entries), []).entries, KbName(entries[i].key)) == Some(e.value)
  {
    var section := SectionColumns(entries);
    NamesDiffer(entries, i);
    MembersNamed(entries, section);
    MemberKey(entries[i].key, entries[i].value, section);
    FoundByName(Header(section), MemberWrites(entries, section), KeyNames(entries), i);
  }

  lemma DictMemberWritten(entries: seq<Entry>, i: nat)
    requires DistinctNames(entries) && i < |entries|
    ensures Lookup(ConvertDict(Obj(entries)).entries, KbName(entries[i].key))
            == Some(ConvertDictMember(entries[i].key, entries[i].value).value.value)
  {
    var writes := DictWrites(entries);
    NamesDiffer(entries, i);
    forall m | 0 <= m < |writes|
      ensures writes[m].Some? && writes[m].value.key == KeyNames(entries)[m]
    {
      assert writes[m] == ConvertDictMember(entries[m].key, entries[m].value);
    }
    FoundByName([], writes, KeyNames(entries), i);
    assert [] + writes == writes;
  }

  /** A key that is found under its converted name in its own dictionary is plain. */
  lemma FoundIsPlain(entries: seq<Entry>, i: nat)
    requires DistinctNames(entries) && i < |entries| && Lookup(entries, KbName(entries[i].key)).Some?
    ensures !IsByteField(entries[i].key)
  {
    var j := LookupIsEntry(entries, KbName(entries[i].key));
    KbNameIsFinal(entries[i].key);
    assert KbName(entries[j].key) == KbName(entries[i].key);
  }

  // ------------------------------------------------------------------ what stays is inert

  /** The member is written as it is. */
  predicate MemberStays(entries: seq<Entry>, i: nat)
    requires i < |entries|
  {
    var key, section := entries[i].key, SectionColumns(entries);
    || (section.Some? && key == "columns") || key == "queries"
    || (!IsByteField(key) && Convert(entries[i].value, ChildColumns(section, key)) == entries[i].value)
  }

  lemma MembersStay(entries: seq<Entry>, i: nat)
    requires DistinctNames(entries) && DistinctKeys(entries) && i < |entries|
    requires Convert(Obj(entries), []) == Obj(entries)
    ensures MemberStays(entries, i)
  {
    var key, child, section := entries[i].key, entries[i].value, SectionColumns(entries);
    MemberKey(key, child, section);
    if !(section.Some? && key == "columns") && key != "queries" {
      MemberWritten(entries, i);
      FoundIsPlain(entries, i);
      LookupAt(entries, i);
    }
  }

  lemma SectionStaysInert(entries: seq<Entry>)
    requires DistinctKeys(entries) && Convert(Obj(entries), []) == Obj(entries) && SectionColumns(entries).Some?
    ensures InertSection(entries, SectionColumns(entries).value)
  {
    FirstStays(Writing(entries));
    SectionStays(entries);
    assert Writing(entries)[0] == Header(SectionColumns(entries))[0];
    assert Collect(Writing(entries)) == entries;
    ColumnsToKbIsObj(SectionColumns(entries).value);
  }

  lemma ColumnsToKbIsObj(columns: seq<Entry>)
    ensures ColumnsToKb(Obj(columns)) == Obj(ColumnsToKb(Obj(columns)).entries)
  {
  }

  /** Conversion leaves a value alone exactly if there is nothing in it to convert. */
  lemma InertIff(v: Json, columns: seq<string>)
    requires MembersStayDistinct(v)
    ensures Convert(v, columns) == v <==> Inert(v, columns)
  {
    DistinctNamesDistinctKeys(v);
    if Inert(v, columns) {
      InertStays(v, columns);
    } else if Convert(v, columns) == v {
      StaysInert(v, columns);
    }
  }

  lemma {:induction false} StaysInert(v: Json, columns: seq<string>)
    requires MembersStayDistinct(v) && WellKeyed(v) && Convert(v, columns) == v
    ensures Inert(v, columns)
    decreases v, 0
  {
    match v
    case Arr(items) =>
      forall i | 0 <= i < |items|
        ensures if columns == [] then Inert(items[i], []) else InertRow(items[i], columns)
      {
        assert Convert(v, columns).items[i] == items[i];
        if columns == [] {
          StaysInert(items[i], []);
        } else if items[i].Obj? {
          DictStaysInert(items[i]);
        }
      }
    case Obj(entries) =>
      assert Convert(Obj(entries), []) == Obj(entries);
      if SectionColumns(entries).Some? {
        SectionStaysInert(entries);
      }
      forall i | 0 <= i < |entries|
        ensures InertMember(entries[i].key, entries[i].value, SectionColumns(entries))
      {
        MembersStay(entries, i);
        if !IsByteField(entries[i].key) && Convert(entries[i].value, ChildColumns(SectionColumns(entries), entries[i].key)) == entries[i].value {
          StaysInert(entries[i].value, ChildColumns(SectionColumns(entries), entries[i].key));
        }
      }
    case _ =>
  }

  lemma {:induction false} DictStaysInert(row: Json)
    requires row.Obj? && MembersStayDistinct(row) && WellKeyed(row) && ConvertDict(row) == row
    ensures InertDict(row)
    decreases row, 0
  {
    forall i | 0 <= i < |row.entries|
      ensures !IsByteField(row.entries[i].key) && Inert(row.entries[i].value, [])
    {
      DictMemberStays(row.entries, i);
      StaysInert(row.entries[i].value, []);
    }
  }

  lemma DictMemberStays(entries: seq<Entry>, i: nat)
    requires DistinctNames(entries) && DistinctKeys(entries) && i < |entries| && ConvertDict(Obj(entries)) == Obj(entries)
    ensures !IsByteField(entries[i].key) && Convert(entries[i].value, []) == entries[i].value
  {
    DictMemberWritten(entries, i);
    FoundIsPlain(entries, i);
    LookupAt(entries, i);
  }

  // ------------------------------------------------------------------ converting twice

  /** The converted dictionary has the converted names and nothing to rename. */
  lemma ConvertedNames(writes: seq<Option<Entry>>)
    requires forall i | 0 <= i < |writes| && writes[i].Some? :: !IsByteField(writes[i].value.key)
    ensures DistinctNames(Collect(writes)) && DistinctKeys(Collect(writes))
  {
    CollectKeys(writes);
    var out := Collect(writes);
    forall i, j | 0 <= i < j < |out|
      ensures KbName(out[i].key) != KbName(out[j].key)
    {
      assert Some(out[i]) in writes && Some(out[j]) in writes;
    }
  }

  lemma WritingNames(entries: seq<Entry>)
    ensures forall i | 0 <= i < |Writing(entries)| && Writing(entries)[i].Some? :: !IsByteField(Writing(entries)[i].value.key)
  {
    var section := SectionColumns(entries);
    var header, members := Header(section), MemberWrites(entries, section);
    ReservedArePlain();
    MembersNamed(entries, section);
    forall m | 0 <= m < |members| && members[m].Some?
      ensures !IsByteField(members[m].value.key)
    {
      KbNameIsFinal(entries[m].key);
    }
    FinalConcat(header, members);
  }

  lemma FinalConcat(header: seq<Option<Entry>>, members: seq<Option<Entry>>)
    requires forall i | 0 <= i < |header| && header[i].Some? :: !IsByteField(header[i].value.key)
    requires forall i | 0 <= i < |members| && members[i].Some? :: !IsByteField(members[i].value.key)
    ensures forall i | 0 <= i < |header + members| && (header + members)[i].Some? :: !IsByteField((header + members)[i].value.key)
  {
  }

  /** If the second conversion changes nothing, neither does it change what became of a member. */
  lemma MemberUnchanged(entries: seq<Entry>, i: nat)
    requires DistinctNames(entries) && DistinctKeys(entries) && i < |entries|
    requires Convert(Convert(Obj(entries), []), []) == Convert(Obj(entries), [])
    requires !(SectionColumns(entries).Some? && entries[i].key == "columns") && entries[i].key != "queries"
    ensures var section := SectionColumns(entries);
            var value := ConvertMember(entries[i].key, entries[i].value, section).value.value;
            Convert(value, ChildColumns(KbSection(section), KbName(entries[i].key))) == value
  {
    var section, out, name := SectionColumns(entries), Collect(Writing(entries)), KbName(entries[i].key);
    MemberKey(entries[i].key, entries[i].value, section);
    MemberWritten(entries, i);
    assert Convert(Obj(entries), []) == Obj(out);
    var j := LookupIsEntry(out, name);
    WritingNames(entries);
    ConvertedNames(Writing(entries));
    MembersStay(out, j);
    SectionStays(entries);
    ReservedArePlain();
    if name == "queries" {
      PlainComesFromItself("queries", entries[i].key);
    }
  }

  lemma {:induction false} TwiceSettles(v: Json, columns: seq<string>)
    requires MembersStayDistinct(v) && WellKeyed(v)
    requires Convert(Convert(v, columns), KbNames(columns)) == Convert(v, columns)
    ensures Settles(v, columns)
    decreases v, 1
  {
    match v
    case Arr(items) =>
      var once := Convert(v, columns);
      forall i | 0 <= i < |items|
        ensures if columns == [] then Settles(items[i], []) else SettlesRow(items[i], columns)
      {
        assert Convert(once, KbNames(columns)).items[i] == once.items[i];
        if columns == [] {
          TwiceSettles(items[i], []);
        } else if items[i].Obj? {
          DictTwiceSettles(items[i]);
        }
      }
    case Obj(entries) =>
      var section := SectionColumns(entries);
      forall i | 0 <= i < |entries|
        ensures SettlesMember(entries[i].key, entries[i].value, section)
      {
        var key, child := entries[i].key, entries[i].value;
        if !(section.Some? && key == "columns") && key != "queries" {
          MemberUnchanged(entries, i);
          if !IsByteField(key) {
            ChildColumnsConverted(section, key);
            TwiceSettles(child, ChildColumns(section, key));
          } else if !Scalar(child) {
            InertIff(child, ChildColumns(KbSection(section), KbName(key)));
          }
        }
      }
    case _ =>
  }

  lemma {:induction false} DictTwiceSettles(row: Json)
    requires row.Obj? && MembersStayDistinct(row) && WellKeyed(row)
    requires ConvertDict(ConvertDict(row)) == ConvertDict(row)
    ensures SettlesDict(row)
    decreases row, 0
  {
    forall i | 0 <= i < |row.entries|
      ensures if IsByteField(row.entries[i].key) then Inert(row.entries[i].value, []) else Settles(row.entries[i].value, [])
    {
      var child := row.entries[i].value;
      DictMemberUnchanged(row.entries, i);
      if !IsByteField(row.entries[i].key) {
        TwiceSettles(child, []);
      } else if !Scalar(child) {
        InertIff(child, []);
      }
    }
  }

  lemma DictMemberUnchanged(entries: seq<Entry>, i: nat)
    requires DistinctNames(entries) && DistinctKeys(entries) && i < |entries|
    requires ConvertDict(ConvertDict(Obj(entries))) == ConvertDict(Obj(entries))
    ensures var value := ConvertDictMember(entries[i].key, entries[i].value).value.value;
            Convert(value, []) == value
  {
    var writes := DictWrites(entries);
    var out := Collect(writes);
    DictMemberWritten(entries, i);
    var j := LookupIsEntry(out, KbName(entries[i].key));
    forall k | 0 <= k < |writes| && writes[k].Some?
      ensures !IsByteField(writes[k].value.key)
    {
      assert writes[k] == ConvertDictMember(entries[k].key, entries[k].value);
      KbNameIsFinal(entries[k].key);
    }
    ConvertedNames(writes);
    DictMemberStays(out, j);
  }

  /** For every report in which converted names stay distinct: converting it a second time
      changes nothing exactly if no byte-named key holds anything that could be converted. */
  lemma ConvertTwiceIff(v: Json, columns: seq<string>)
    requires MembersStayDistinct(v)
    ensures Convert(Convert(v, columns), KbNames(columns)) == Convert(v, columns) <==> Settles(v, columns)
  {
    DistinctNamesDistinctKeys(v);
    if Settles(v, columns) {
      SettledTwice(v, columns);
    } else if Convert(Convert(v, columns), KbNames(columns)) == Convert(v, columns) {
      TwiceSettles(v, columns);
    }
  }

  /** For a dictionary of one member: an object or list under a byte-named key is passed over
      the first time; the key is plain the second time, and the value is converted. */
  lemma ByteKeyOverContainer(field: string, v: Json)
    requires IsByteField(field) && !Scalar(v)
    ensures var report := Obj([Entry(field, v)]);
            Convert(Convert(report, []), []) == Convert(report, []) <==> Convert(v, []) == v
  {
    KbNameIsFinal(field);
    ReservedArePlain();
    OneMember(field, v);
    OneMember(KbName(field), v);
  }

  lemma ConvertingTwiceCanDiffer(field: string)
    requires IsByteField(field)
    ensures var report := Obj([Entry(field, Obj([Entry(field, Num(1024.0))]))]);
            Convert(Convert(report, []), []) != Convert(report, [])
  {
    var inner := Obj([Entry(field, Num(1024.0))]);
    ReservedArePlain();
    OneMember(field, Num(1024.0));
    assert Convert(inner, []).entries[0].key != inner.entries[0].key;
    ByteKeyOverContainer(field, inner);
  }

  /** A dictionary of one entry. */
  lemma OneMember(key: string, child: Json)
    requires !(key == "columns" || key == "queries")
    ensures Convert(Obj([Entry(key, child)]), [])
            == Obj([Entry(KbName(key), if IsByteField(key) then BytesToKb(child, WithoutSuffix(key)) else Convert(child, []))])
  {
    var entries := [Entry(key, child)];
    assert Lookup(entries[1..], "columns") == None;
    assert SectionColumns(entries) == None;
    var writes := MemberWrites(entries, None);
    assert writes[0] == ConvertMember(key, child, None);
    assert Header(None) + writes == writes == [writes[0]];
    assert writes[..0] == [];
    assert Collect(writes) == Put([], writes[0].value);
  }
}
