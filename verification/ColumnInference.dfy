/** Column names of a VictoriaLogs table (scripts/log-analysis/clients.py): the report prints a
    LogsQL query and later reads the column names back out of the query text. */
module ColumnInference {
  import opened Wrappers

  const MESSAGES_COUNT := "messages_count"
  const MESSAGE_SIZE := "sum_message_size_bytes"

  // ------------------------------------------------------------------ characters

  predicate Letter(c: char) {
    'a' <= c <= 'z' || 'A' <= c <= 'Z'
  }

  predicate Digit(c: char) {
    '0' <= c <= '9'
  }

  predicate WordChar(c: char) {
    Letter(c) || Digit(c) || c == '_'
  }

  /** \s, and what str.strip removes. */
  predicate Space(c: char) {
    '\t' <= c <= '\r' || '\U{1C}' <= c <= ' ' || (c > '\U{7F}' && WideSpace(c))
  }

  predicate WideSpace(c: char) {
    c == '\U{85}' || c == '\U{A0}' || c == '\U{1680}' || '\U{2000}' <= c <= '\U{200A}' || c == '\U{2028}' ||
    c == '\U{2029}' || c == '\U{202F}' || c == '\U{205F}' || c == '\U{3000}'
  }

  /** The lower-case letter `low` under IGNORECASE, where the long s is an s as well. */
  predicate SameLetter(c: char, low: char) {
    c == low || ('A' <= c <= 'Z' && c as int + 32 == low as int) || (c == '\U{17F}' && low == 's')
  }

  /** What [A-Za-z_] admits under IGNORECASE: four letters outside ASCII fold into the range. */
  predicate NameStart(c: char) {
    Letter(c) || c == '_' || c == '\U{130}' || c == '\U{131}' || c == '\U{17F}' || c == '\U{212A}'
  }

  predicate NameChar(c: char) {
    NameStart(c) || Digit(c)
  }

  // ------------------------------------------------------------------ printing

  predicate FieldChar(c: char) {
    WordChar(c) || c == '.' || c == '/' || c == '-'
  }

  /** FIELD_PATTERN */
  predicate FieldPattern(s: string) {
    s != "" && (Letter(s[0]) || s[0] == '_') && forall i | 0 <= i < |s| :: FieldChar(s[i])
  }

  /** SIMPLE_FIELD_PATTERN */
  predicate SimpleFieldPattern(s: string) {
    FieldPattern(s) && forall i | 0 <= i < |s| :: WordChar(s[i])
  }

  /** None stands for the ValueError. */
  function FieldName(field: string): Option<string> {
    if !FieldPattern(field) then None
    else if SimpleFieldPattern(field) then Some(field)
    else Some("\"" + field + "\"")
  }

  predicate AllValid(fields: seq<string>) {
    forall i | 0 <= i < |fields| :: FieldPattern(fields[i])
  }

  function FieldNames(fields: seq<string>): Option<seq<string>> {
    if fields == [] then Some([])
    else match (FieldName(fields[0]), FieldNames(fields[1..]))
      case (Some(name), Some(names)) => Some([name] + names)
      case _ => None
  }

  /** ", ".join(names) */
  function Join(names: seq<string>): string {
    if names == [] then "" else if |names| == 1 then names[0] else names[0] + ", " + Join(names[1..])
  }

  function Decimal(n: nat): (r: string)
    ensures r != "" && forall i | 0 <= i < |r| :: Digit(r[i])
  {
    var digit := [('0' as int + n % 10) as char];
    if n < 10 then digit else Decimal(n / 10) + digit
  }

  const STATS := "| stats by ("
  const HEAD := " " + STATS
  const COUNT_CALL := ") count() as "
  const SIZE_CALL := ", sum_len(_msg) as "
  const SORT := " | sort by (messages_count desc) | limit "

  /** The top_by_count query of category_queries. */
  function TopByCount(prefix: string, fields: seq<string>, topLimit: nat): Option<string> {
    match FieldNames(fields)
    case Some(names) =>
      Some(prefix + HEAD + Join(names) + COUNT_CALL + MESSAGES_COUNT + SIZE_CALL + MESSAGE_SIZE + SORT + Decimal(topLimit))
    case None => None
  }

  // ------------------------------------------------------------------ matching

  function SkipSpaces(s: string, i: nat): (j: nat)
    requires i <= |s|
    ensures i <= j <= |s| && (forall k | i <= k < j :: Space(s[k])) && (j < |s| ==> !Space(s[j]))
    decreases |s| - i
  {
    if i < |s| && Space(s[i]) then SkipSpaces(s, i + 1) else i
  }

  function SkipName(s: string, i: nat): (j: nat)
    requires i <= |s|
    ensures i <= j <= |s| && (forall k | i <= k < j :: NameChar(s[k])) && (j < |s| ==> !NameChar(s[j]))
    decreases |s| - i
  {
    if i < |s| && NameChar(s[i]) then SkipName(s, i + 1) else i
  }

  /** The first position of `c` from i on, or |s|. */
  function Find(s: string, c: char, i: nat): (j: nat)
    requires i <= |s|
    ensures i <= j <= |s| && (forall k | i <= k < j :: s[k] != c) && (j < |s| ==> s[j] == c)
    decreases |s| - i
  {
    if i < |s| && s[i] != c then Find(s, c, i + 1) else i
  }

  predicate WordAt(s: string, i: nat, word: string) {
    i + |word| <= |s| && forall k | 0 <= k < |word| :: SameLetter(s[i + k], word[k])
  }

  /** \|\s*stats from position i; the position after it. */
  function StatsWord(s: string, i: nat): (r: Option<nat>)
    requires i <= |s|
    ensures r.Some? ==> r.value <= |s|
  {
    if i < |s| && s[i] == '|' then
      var j := SkipSpaces(s, i + 1);
      if WordAt(s, j, "stats") then Some(j + 5) else None
    else None
  }

  /** LOGSQL_STATS_PATTERN matches at i. */
  predicate StatsAt(s: string, i: nat)
    requires i <= |s|
  {
    var after := StatsWord(s, i);
    after.Some? && (after.value < |s| ==> !WordChar(s[after.value]))
  }

  /** LOGSQL_STATS_BY_PATTERN at i; its group. */
  function StatsByAt(s: string, i: nat): Option<string>
    requires i <= |s|
  {
    match StatsWord(s, i)
    case None => None
    case Some(after) =>
      var word := SkipSpaces(s, after);
      if word == after || !WordAt(s, word, "by") then None else
      var paren := SkipSpaces(s, word + 2);
      if paren == |s| || s[paren] != '(' then None else
      var close := Find(s, ')', paren + 1);
      if close == |s| then None else Some(s[paren + 1..close])
  }

  function FirstStatsBy(s: string, i: nat): Option<string>
    requires i <= |s|
    decreases |s| - i
  {
    if i == |s| then None
    else if StatsByAt(s, i).Some? then StatsByAt(s, i)
    else FirstStatsBy(s, i + 1)
  }

  /** The start of the first stats stage. */
  function FirstStats(s: string, i: nat): (r: Option<nat>)
    requires i <= |s|
    ensures r.Some? ==> r.value <= |s|
    decreases |s| - i
  {
    if i == |s| then None else if StatsAt(s, i) then Some(i) else FirstStats(s, i + 1)
  }

  /** LOGSQL_ALIAS_PATTERN at i; where the name starts. */
  function AliasAt(s: string, i: nat): (r: Option<nat>)
    requires i <= |s|
    ensures r.Some? ==> i < r.value < |s| && NameStart(s[r.value])
  {
    if WordAt(s, i, "as") && (i > 0 ==> !WordChar(s[i - 1])) && i + 2 < |s| && Space(s[i + 2]) then
      var n := SkipSpaces(s, i + 2);
      if n < |s| && NameStart(s[n]) then Some(n) else None
    else None
  }

  /** LOGSQL_ALIAS_PATTERN.findall, from i on. */
  function Aliases(s: string, i: nat): seq<string>
    requires i <= |s|
    decreases |s| - i
  {
    if i == |s| then []
    else match AliasAt(s, i)
      case None => Aliases(s, i + 1)
      case Some(n) => var e := SkipName(s, n); [s[n..e]] + Aliases(s, e)
  }

  function Strip(s: string): (r: string)
    decreases |s|
  {
    if s != "" && Space(s[0]) then Strip(s[1..])
    else if s != "" && Space(s[|s| - 1]) then Strip(s[..|s| - 1])
    else s
  }

  /** A text that json.loads reads between quotes as itself. */
  predicate JsonPlain(s: string) {
    forall i | 0 <= i < |s| :: s[i] != '"' && s[i] != '\\' && s[i] >= ' '
  }

  function StripQuotes(s: string): string
    decreases |s|
  {
    if s != "" && s[0] == '"' then StripQuotes(s[1..])
    else if s != "" && s[|s| - 1] == '"' then StripQuotes(s[..|s| - 1])
    else s
  }

  function Unquote(field: string): string {
    if |field| >= 2 && field[0] == '"' && field[|field| - 1] == '"' then
      if JsonPlain(field[1..|field| - 1]) then field[1..|field| - 1] else StripQuotes(field)
    else field
  }

  /** group.split(","), stripped, without the blank ones, unquoted. */
  function GroupFields(group: string): seq<string>
    decreases |group|
  {
    var comma := Find(group, ',', 0);
    var first := Strip(group[..comma]);
    (if first == "" then [] else [Unquote(first)]) +
    (if comma == |group| then [] else GroupFields(group[comma + 1..]))
  }

  function AppendNew(columns: seq<string>, names: seq<string>): seq<string>
    decreases |names|
  {
    if names == [] then columns
    else AppendNew(if names[0] in columns then columns else columns + [names[0]], names[1..])
  }

  function Inferred(expression: string): seq<string> {
    var group := FirstStatsBy(expression, 0);
    var columns := if group.Some? then GroupFields(group.value) else [];
    var start := FirstStats(expression, 0);
    AppendNew(columns, Aliases(if start.Some? then expression[start.value..] else expression, 0))
  }

  method InferLogsqlColumns(expression: string) returns (columns: seq<string>)
    ensures columns == Inferred(expression)
  {
    columns := [];
    var group := FirstStatsBy(expression, 0);
    if group.Some? {
      columns := GroupFields(group.value);
    }
    var start := FirstStats(expression, 0);
    var aliasSource := if start.Some? then expression[start.value..] else expression;
    var found := Aliases(aliasSource, 0);
    ghost var before := columns;
    for i := 0 to |found|
      invariant AppendNew(columns, found[i..]) == AppendNew(before, found)
    {
      assert found[i..][1..] == found[i + 1..];
      if found[i] !in columns {
        columns := columns + [found[i]];
      }
    }
  }

  // ------------------------------------------------------------------ the group is read back

  lemma FieldNamePrints(field: string)
    requires FieldPattern(field)
    ensures FieldName(field).Some?
    ensures PrintedName(FieldName(field).value) && Unquote(FieldName(field).value) == field
  {
    if !SimpleFieldPattern(field) {
      QuotedName(field);
    }
  }

  /** No space, comma or closing parenthesis. */
  predicate PrintedName(name: string) {
    name != "" && forall i | 0 <= i < |name| :: FieldChar(name[i]) || name[i] == '"'
  }

  lemma QuotedName(field: string)
    requires FieldPattern(field)
    ensures PrintedName("\"" + field + "\"") && Unquote("\"" + field + "\"") == field
  {
    var name := "\"" + field + "\"";
    assert name[1..|name| - 1] == field;
    forall i | 0 <= i < |name|
      ensures FieldChar(name[i]) || name[i] == '"'
    {
      if 0 < i < |name| - 1 {
        assert name[i] == field[i - 1];
      }
    }
    assert JsonPlain(field);
  }

  lemma PrintedNameHasNoSpace(name: string)
    requires PrintedName(name)
    ensures forall i | 0 <= i < |name| :: !Space(name[i]) && name[i] != ',' && name[i] != ')'
    ensures GroupText(name)
  {
    forall i | 0 <= i < |name|
      ensures GroupTextAt(name, i)
    {
      assert !Space(name[i]) && name[i] != ')';
    }
  }

  /** A printed name with the space Join leaves before it. */
  lemma StripPadded(pad: string, name: string)
    requires pad == "" || pad == " "
    requires name != "" && forall i | 0 <= i < |name| :: !Space(name[i])
    ensures Strip(pad + name) == name
  {
    assert (pad + name)[|pad|..] == name;
    if pad == "" {
      assert pad + name == name;
    }
  }

  /** Reading one printed name off the front of a group. */
  lemma ReadName(pad: string, name: string, rest: string)
    requires pad == "" || pad == " "
    requires name != "" && forall i | 0 <= i < |name| :: !Space(name[i]) && name[i] != ','
    ensures GroupFields(pad + name) == [Unquote(name)]
    ensures GroupFields(pad + name + "," + rest) == [Unquote(name)] + GroupFields(rest)
  {
    StripPadded(pad, name);
    var only, text := pad + name, pad + name + "," + rest;
    assert Find(only, ',', 0) == |only| && only[..|only|] == only;
    assert text[|only|] == ',' && text[..|only|] == only && text[|only| + 1..] == rest;
    assert forall k | 0 <= k < |only| :: text[k] == only[k];
    assert Find(text, ',', 0) == |only|;
  }

  lemma BlankGroup(pad: string)
    requires pad == "" || pad == " "
    ensures GroupFields(pad) == []
  {
    assert Find(pad, ',', 0) == |pad| && pad[..|pad|] == pad;
    assert Strip("") == "";
    if pad == " " {
      assert pad[1..] == "" && Strip(pad) == Strip(pad[1..]);
    }
  }

  lemma FirstIsReadBack(pad: string, field: string, rest: seq<string>)
    requires (pad == "" || pad == " ") && FieldPattern(field)
    ensures var text := pad + Join([FieldName(field).value] + rest);
            GroupFields(text) == [field] + if rest == [] then [] else GroupFields(" " + Join(rest))
  {
    var name := FieldName(field).value;
    FieldNamePrints(field);
    PrintedNameHasNoSpace(name);
    ReadName(pad, name, " " + Join(rest));
    JoinedAfter(pad, name, rest);
  }

  lemma {:induction false} GroupIsReadBack(pad: string, fields: seq<string>)
    requires pad == "" || pad == " "
    requires AllValid(fields)
    ensures FieldNames(fields).Some?
    ensures GroupFields(pad + Join(FieldNames(fields).value)) == fields
    decreases |fields|
  {
    if fields == [] {
      assert pad + "" == pad;
      BlankGroup(pad);
    } else {
      GroupIsReadBack(" ", fields[1..]);
      var name, rest := FieldName(fields[0]).value, FieldNames(fields[1..]).value;
      FirstIsReadBack(pad, fields[0], rest);
      assert FieldNames(fields).value == [name] + rest;
      NoNames(fields[1..]);
      assert fields == [fields[0]] + fields[1..];
    }
  }

  lemma NoNames(fields: seq<string>)
    requires FieldNames(fields).Some?
    ensures FieldNames(fields).value == [] <==> fields == []
  {
  }

  lemma JoinedAfter(pad: string, name: string, rest: seq<string>)
    ensures pad + Join([name] + rest) == if rest == [] then pad + name else pad + name + "," + (" " + Join(rest))
  {
    assert ([name] + rest)[1..] == rest;
    if rest != [] {
      assert pad + (name + ", " + Join(rest)) == pad + name + "," + (" " + Join(rest));
    }
  }

  /** What Join prints: the only spaces follow a comma, and there is no closing parenthesis. */
  predicate GroupText(group: string) {
    forall i | 0 <= i < |group| :: GroupTextAt(group, i)
  }

  predicate GroupTextAt(group: string, i: nat)
    requires i < |group|
  {
    group[i] != ')' && (Space(group[i]) ==> i > 0 && group[i - 1] == ',')
  }

  lemma GroupTextConcat(a: string, b: string)
    requires GroupText(a) && GroupText(b)
    ensures GroupText(a + b)
  {
    var s := a + b;
    forall i | 0 <= i < |s|
      ensures GroupTextAt(s, i)
    {
      if i < |a| {
        assert GroupTextAt(a, i) && s[i] == a[i];
        assert i > 0 ==> s[i - 1] == a[i - 1];
      } else {
        assert GroupTextAt(b, i - |a|) && s[i] == b[i - |a|];
        assert i > |a| ==> s[i - 1] == b[i - |a| - 1];
      }
    }
  }

  lemma NameThenComma(name: string)
    requires GroupText(name)
    ensures GroupText(name + ", ")
  {
    GroupTextComma();
    GroupTextConcat(name, ", ");
  }

  lemma GroupTextComma()
    ensures GroupText(", ")
  {
    assert GroupTextAt(", ", 0) && GroupTextAt(", ", 1);
  }

  lemma {:induction false} JoinIsGroupText(fields: seq<string>)
    requires FieldNames(fields).Some?
    ensures GroupText(Join(FieldNames(fields).value))
  {
    if fields != [] {
      FieldNamePrints(fields[0]);
      PrintedNameHasNoSpace(FieldName(fields[0]).value);
      JoinIsGroupText(fields[1..]);
      var name, rest := FieldName(fields[0]).value, FieldNames(fields[1..]).value;
      assert ([name] + rest)[1..] == rest;
      NameThenComma(name);
      GroupTextConcat(name + ", ", Join(rest));
    }
  }

  // ------------------------------------------------------------------ the stages are found

  /** The prefix has no stats stage of its own. It may have other pipes. */
  predicate NoStats(prefix: string) {
    forall i | 0 <= i < |prefix| :: !StatsAt(prefix, i)
  }

  lemma StatsStaysOut(prefix: string, rest: string, i: nat)
    requires i < |prefix| && !StatsAt(prefix, i)
    requires |rest| >= 2 && rest[0] == ' ' && rest[1] == '|'
    ensures !StatsAt(prefix + rest, i)
  {
    var s := prefix + rest;
    if StatsWord(s, i).Some? {
      var j, j' := SkipSpaces(s, i + 1), SkipSpaces(prefix, i + 1);
      assert forall k | i < k < |prefix| :: s[k] == prefix[k];
      assert s[|prefix|] == ' ' && s[|prefix| + 1] == '|';
      assert SameLetter(s[j + 0], "stats"[0]) && SameLetter(s[j + 1], "stats"[1]) && SameLetter(s[j + 2], "stats"[2]);
      assert SameLetter(s[j + 3], "stats"[3]) && SameLetter(s[j + 4], "stats"[4]);
      assert !Space('|') && j != |prefix| + 1;
      assert j + 5 <= |prefix|;
      assert j == j';
      assert WordAt(prefix, j, "stats");
    }
  }

  lemma {:induction false} FirstStatsFrom(s: string, i: nat, at: nat)
    requires i <= at < |s| && StatsAt(s, at)
    requires forall k | i <= k < at :: !StatsAt(s, k)
    ensures FirstStats(s, i) == Some(at)
    decreases at - i
  {
    if i < at {
      FirstStatsFrom(s, i + 1, at);
    }
  }

  lemma StatsByIsStats(s: string, i: nat)
    requires i <= |s| && StatsByAt(s, i).Some?
    ensures StatsAt(s, i)
  {
    var after := StatsWord(s, i).value;
    assert Space(s[after]);
  }

  lemma {:induction false} FirstStatsByFrom(s: string, i: nat, at: nat)
    requires i <= at < |s| && StatsByAt(s, at).Some?
    requires forall k | i <= k < at :: !StatsAt(s, k)
    ensures FirstStatsBy(s, i) == StatsByAt(s, at)
    decreases at - i
  {
    if i < at {
      if StatsByAt(s, i).Some? {
        StatsByIsStats(s, i);
      }
      FirstStatsByFrom(s, i + 1, at);
    }
  }

  predicate StatsHead(s: string, p: nat) {
    p + 12 <= |s| && s[p..p + 12] == STATS
  }

  lemma HeadChars(s: string, p: nat)
    requires StatsHead(s, p)
    ensures s[p] == '|' && s[p + 1] == ' ' && s[p + 2] == 's' && s[p + 3] == 't' && s[p + 4] == 'a' && s[p + 5] == 't' && s[p + 6] == 's'
    ensures s[p + 7] == ' ' && s[p + 8] == 'b' && s[p + 9] == 'y' && s[p + 10] == ' ' && s[p + 11] == '('
  {
    var head := s[p..p + 12];
    assert forall k | 0 <= k < 12 :: s[p + k] == head[k];
    assert head[0] == '|' && head[1] == ' ' && head[2] == 's' && head[3] == 't' && head[4] == 'a' && head[5] == 't';
    assert head[6] == 's' && head[7] == ' ' && head[8] == 'b' && head[9] == 'y' && head[10] == ' ' && head[11] == '(';
  }

  lemma HeadStats(s: string, p: nat)
    requires StatsHead(s, p)
    ensures StatsWord(s, p) == Some(p + 7) && StatsAt(s, p)
  {
    HeadChars(s, p);
    OneSpace(s, p + 1);
    assert WordAt(s, p + 2, "stats");
  }

  lemma HeadBy(s: string, p: nat)
    requires StatsHead(s, p)
    ensures SkipSpaces(s, p + 7) == p + 8 && WordAt(s, p + 8, "by")
    ensures p + 12 < |s| ==> SkipSpaces(s, p + 10) == p + 11 && s[p + 11] == '('
  {
    HeadChars(s, p);
    OneSpace(s, p + 7);
    assert WordAt(s, p + 8, "by");
    OneSpace(s, p + 10);
  }

  lemma HeadMatches(s: string, p: nat, close: nat)
    requires StatsHead(s, p) && p + 12 <= close < |s| && s[close] == ')'
    requires forall k | p + 12 <= k < close :: s[k] != ')'
    ensures StatsAt(s, p) && StatsByAt(s, p) == Some(s[p + 12..close])
  {
    HeadStats(s, p);
    HeadBy(s, p);
    assert Find(s, ')', p + 12) == close;
  }

  lemma OneSpace(s: string, i: nat)
    requires i + 1 < |s| && s[i] == ' ' && !Space(s[i + 1])
    ensures SkipSpaces(s, i) == i + 1
  {
    assert SkipSpaces(s, i + 1) == i + 1;
  }

  // ------------------------------------------------------------------ the aliases are found

  /** The last two letters before a space spell "as". */
  predicate AsBefore(s: string, i: nat) {
    2 <= i < |s| && Space(s[i]) && SameLetter(s[i - 1], 's') && SameLetter(s[i - 2], 'a')
  }

  lemma AliasFollowsAs(s: string, i: nat)
    requires i <= |s|
    ensures AliasAt(s, i).Some? ==> AsBefore(s, i + 2)
  {
    if AliasAt(s, i).Some? {
      assert SameLetter(s[i + 0], "as"[0]) && SameLetter(s[i + 1], "as"[1]);
    }
  }

  lemma {:induction false} SkipQuiet(s: string, i: nat, j: nat)
    requires i <= j <= |s|
    requires forall k | i + 2 <= k < j + 2 :: !AsBefore(s, k)
    ensures Aliases(s, i) == Aliases(s, j)
    decreases j - i
  {
    if i < j {
      AliasFollowsAs(s, i);
      SkipQuiet(s, i + 1, j);
    }
  }

  predicate QuietUpTo(part: string, n: nat) {
    forall k | 2 <= k < n && k < |part| :: !AsBefore(part, k)
  }

  /** Text that introduces an alias: its only "as" is the one before its last character. */
  predicate Leads(text: string) {
    |text| >= 4 && text[|text| - 4..] == " as " && QuietUpTo(text, |text| - 1)
  }

  predicate Name(text: string) {
    text != "" && NameStart(text[0]) && forall k | 0 <= k < |text| :: NameChar(text[k])
  }

  predicate EndsName(rest: string) {
    rest != "" && !NameChar(rest[0])
  }

  /** The part of `s` from p to q is `part`. */
  predicate Part(s: string, p: nat, q: nat, part: string) {
    p <= q <= |s| && s[p..q] == part
  }

  lemma PartQuiet(s: string, p: nat, q: nat, part: string, k: nat)
    requires Part(s, p, q, part) && p + 2 <= k < q
    ensures AsBefore(s, k) == AsBefore(part, k - p)
  {
    assert part[k - p] == s[k] && part[k - p - 1] == s[k - 1] && part[k - p - 2] == s[k - 2];
  }

  lemma OneAlias(s: string, p: nat, lead: string, at: nat, name: string, e: nat)
    requires Part(s, p, at, lead) && Leads(lead) && Part(s, at, e, name) && Name(name)
    requires e < |s| ==> !NameChar(s[e])
    ensures Aliases(s, p) == [name] + Aliases(s, e)
  {
    var i: nat := at - 3;
    LeadIsQuiet(s, p, lead, at);
    SkipUpTo(s, p, i, at - 1);
    AliasAfterLead(s, p, lead, i, at, name, e);
  }

  lemma AliasAfterLead(s: string, p: nat, lead: string, i: nat, at: nat, name: string, e: nat)
    requires Part(s, p, at, lead) && |lead| >= 4 && lead[|lead| - 4..] == " as " && at == i + 3
    requires Part(s, at, e, name) && Name(name) && (e < |s| ==> !NameChar(s[e]))
    ensures Aliases(s, i) == [name] + Aliases(s, e)
  {
    LeadEnds(s, p, at, lead);
    ReadAlias(s, i, at, name, e);
  }

  predicate QuietBetween(s: string, i: nat, end: nat) {
    forall k | i <= k < end :: !AsBefore(s, k)
  }

  lemma SkipUpTo(s: string, i: nat, j: nat, end: nat)
    requires i <= j <= |s| && end == j + 2 && QuietBetween(s, i + 2, end)
    ensures Aliases(s, i) == Aliases(s, j)
  {
    SkipQuiet(s, i, j);
  }

  lemma LeadIsQuiet(s: string, p: nat, lead: string, at: nat)
    requires Part(s, p, at, lead) && |lead| >= 4 && QuietUpTo(lead, |lead| - 1)
    ensures QuietBetween(s, p + 2, at - 1)
  {
    forall k | p + 2 <= k < at - 1
      ensures !AsBefore(s, k)
    {
      PartQuiet(s, p, at, lead, k);
      assert !AsBefore(lead, k - p);
    }
  }

  lemma LeadEnds(s: string, p: nat, at: nat, lead: string)
    requires Part(s, p, at, lead) && |lead| >= 4 && lead[|lead| - 4..] == " as "
    ensures s[at - 4] == ' ' && s[at - 3] == 'a' && s[at - 2] == 's' && s[at - 1] == ' '
  {
    var last := s[at - 4..at];
    assert last == lead[|lead| - 4..];
    assert last[0] == ' ' && last[1] == 'a' && last[2] == 's' && last[3] == ' ';
  }

  /** From the `as` on. */
  lemma ReadAlias(s: string, i: nat, at: nat, name: string, e: nat)
    requires 0 < i && at == i + 3 <= |s| && s[i - 1] == ' ' && s[i] == 'a' && s[i + 1] == 's' && s[i + 2] == ' '
    requires Part(s, at, e, name) && Name(name)
    requires e < |s| ==> !NameChar(s[e])
    ensures Aliases(s, i) == [name] + Aliases(s, e)
  {
    assert forall k | at <= k < e :: s[k] == name[k - at];
    assert NameStart(s[at]) && !Space(s[at]);
    assert WordAt(s, i, "as");
    OneSpace(s, i + 2);
    NameRun(s, at, e);
  }

  lemma {:induction false} NameRun(s: string, i: nat, e: nat)
    requires i <= e <= |s| && (forall k | i <= k < e :: NameChar(s[k])) && (e < |s| ==> !NameChar(s[e]))
    ensures SkipName(s, i) == e
    decreases e - i
  {
    if i < e {
      NameRun(s, i + 1, e);
    }
  }

  lemma TwoAliases(s: string, lead: string, a: nat, x: string, b: nat, between: string, c: nat, y: string, d: nat, rest: string)
    requires Part(s, 0, a, lead) && Part(s, a, b, x) && Part(s, b, c, between) && Part(s, c, d, y) && Part(s, d, |s|, rest)
    requires Leads(lead) && Name(x) && Leads(between) && EndsName(between) && Name(y)
    requires (rest == "" || EndsName(rest)) && QuietUpTo(rest, |rest|)
    ensures Aliases(s, 0) == [x, y]
  {
    assert s[b] == between[0] && (rest != "" ==> s[d] == rest[0]);
    OneAlias(s, 0, lead, a, x, b);
    OneAlias(s, b, between, c, y, d);
    forall k | d + 2 <= k < |s| + 2
      ensures !AsBefore(s, k)
    {
      if k < |s| {
        PartQuiet(s, d, |s|, rest, k);
      }
    }
    SkipQuiet(s, d, |s|);
  }

  lemma StatsLeads(head: string, group: string, call: string)
    requires GroupText(group) && Leads(call) && |head| >= 2 && QuietUpTo(head, |head|)
    requires call[0] == ')'
    ensures Leads(head + group + call)
  {
    var s, a := head + group + call, |head| + |group|;
    assert s[|s| - 4..] == call[|call| - 4..];
    forall k | 2 <= k < |s| - 1
      ensures !AsBefore(s, k)
    {
      if k < |head| {
        assert s[k] == head[k] && s[k - 1] == head[k - 1] && s[k - 2] == head[k - 2];
        assert !AsBefore(head, k);
      } else if k < a {
        assert s[k] == group[k - |head|] && GroupTextAt(group, k - |head|);
        if Space(s[k]) {
          assert s[k - 1] == group[k - |head| - 1];
        }
      } else {
        assert s[k] == call[k - a];
        if k >= a + 2 {
          assert s[k - 1] == call[k - a - 1] && s[k - 2] == call[k - a - 2];
          assert !AsBefore(call, k - a);
        }
      }
    }
  }

  lemma SortIsQuiet(sort: string, digits: string)
    requires QuietUpTo(sort, |sort|) && forall i | 0 <= i < |digits| :: Digit(digits[i])
    ensures QuietUpTo(sort + digits, |sort + digits|)
  {
    var s := sort + digits;
    forall k | 2 <= k < |s|
      ensures !AsBefore(s, k)
    {
      if k < |sort| {
        assert !AsBefore(sort, k);
      } else {
        assert s[k] == digits[k - |sort|];
      }
    }
  }

  lemma StageLiterals()
    ensures QuietUpTo(STATS, |STATS|) && |STATS| >= 2
  {
  }

  lemma CountLeads()
    ensures Leads(COUNT_CALL) && COUNT_CALL[0] == ')'
  {
  }

  lemma SizeLeads()
    ensures Leads(SIZE_CALL) && EndsName(SIZE_CALL)
  {
  }

  lemma SortLiteral()
    ensures QuietUpTo(SORT, |SORT|) && EndsName(SORT)
  {
  }

  lemma AliasLiterals()
    ensures Name(MESSAGES_COUNT) && Name(MESSAGE_SIZE) && MESSAGES_COUNT != MESSAGE_SIZE
  {
    assert |MESSAGES_COUNT| != |MESSAGE_SIZE|;
  }

  // ------------------------------------------------------------------ the main theorem

  /** For every list of valid fields, in any order and with any repetition, the columns read
      from the printed query are the fields and then the aliases that are not fields already. */
  lemma InferenceUndoesPrinting(prefix: string, fields: seq<string>, topLimit: nat)
    requires NoStats(prefix)
    ensures TopByCount(prefix, fields, topLimit).Some? <==> AllValid(fields)
    ensures TopByCount(prefix, fields, topLimit).Some? ==>
              Inferred(TopByCount(prefix, fields, topLimit).value) == AppendNew(fields, [MESSAGES_COUNT, MESSAGE_SIZE])
  {
    PrintedIffValid(fields);
    if FieldNames(fields).Some? {
      var group := Join(FieldNames(fields).value);
      JoinIsGroupText(fields);
      GroupIsReadBack("", fields);
      assert "" + group == group;
      CountLeads();
      SizeLeads();
      SortLiteral();
      AliasLiterals();
      QueryIsRead(prefix, group, COUNT_CALL, MESSAGES_COUNT, SIZE_CALL, MESSAGE_SIZE, SORT, Decimal(topLimit));
    }
  }

  /** The same for any two metrics whose calls and names print like these. */
  lemma QueryIsRead(prefix: string, group: string, call: string, x: string, between: string, y: string, sort: string, digits: string)
    requires NoStats(prefix) && GroupText(group)
    requires Leads(call) && call[0] == ')' && Name(x)
    requires Leads(between) && EndsName(between) && Name(y)
    requires QuietUpTo(sort, |sort|) && EndsName(sort) && forall i | 0 <= i < |digits| :: Digit(digits[i])
    ensures Inferred(prefix + HEAD + group + call + x + between + y + sort + digits) == AppendNew(GroupFields(group), [x, y])
  {
    var rest := call + x + between + y + (sort + digits);
    assert prefix + HEAD + group + call + x + between + y + sort + digits == prefix + (HEAD + group + rest) by {
      Regroup(prefix, HEAD, group, call, x, between, y, sort, digits);
    }
    StagesFound(prefix, group, rest);
    FromTheStage(prefix, STATS, group, call, x, between, y, sort + digits);
    StageLiterals();
    QueryAliases(STATS, group, call, x, between, y, sort, digits);
  }

  lemma Regroup(prefix: string, head: string, group: string, call: string, x: string, between: string, y: string, sort: string, digits: string)
    ensures prefix + head + group + call + x + between + y + sort + digits
            == prefix + (head + group + (call + x + between + y + (sort + digits)))
  {
  }

  lemma FromTheStage(prefix: string, stats: string, group: string, call: string, x: string, between: string, y: string, rest: string)
    ensures (prefix + (" " + stats + group + (call + x + between + y + rest)))[|prefix| + 1..]
            == stats + group + call + x + between + y + rest
  {
    assert prefix + (" " + stats + group + (call + x + between + y + rest))
        == (prefix + " ") + (stats + group + call + x + between + y + rest);
  }

  lemma QueryAliases(stats: string, group: string, call: string, x: string, between: string, y: string, sort: string, digits: string)
    requires QuietUpTo(stats, |stats|) && |stats| >= 2 && GroupText(group)
    requires Leads(call) && call[0] == ')' && Name(x)
    requires Leads(between) && EndsName(between) && Name(y)
    requires QuietUpTo(sort, |sort|) && EndsName(sort) && forall i | 0 <= i < |digits| :: Digit(digits[i])
    ensures Aliases(stats + group + call + x + between + y + (sort + digits), 0) == [x, y]
  {
    var tail, rest := stats + group + call, sort + digits;
    StatsLeads(stats, group, call);
    SortIsQuiet(sort, digits);
    Pieces(tail, x, between, y, rest);
    TwoAliases(tail + x + between + y + rest, tail, |tail|, x, |tail + x|, between, |tail + x + between|, y,
      |tail + x + between + y|, rest);
  }

  lemma Pieces(a: string, b: string, c: string, d: string, e: string)
    ensures var s := a + b + c + d + e;
            && Part(s, 0, |a|, a) && Part(s, |a|, |a + b|, b) && Part(s, |a + b|, |a + b + c|, c)
            && Part(s, |a + b + c|, |a + b + c + d|, d) && Part(s, |a + b + c + d|, |s|, e)
  {
  }

  lemma {:induction false} PrintedIffValid(fields: seq<string>)
    ensures FieldNames(fields).Some? <==> AllValid(fields)
  {
    if fields != [] {
      PrintedIffValid(fields[1..]);
      if AllValid(fields[1..]) && FieldPattern(fields[0]) {
        assert forall i | 1 <= i < |fields| :: fields[i] == fields[1..][i - 1];
      }
      if AllValid(fields) {
        assert forall i | 0 <= i < |fields[1..]| :: fields[1..][i] == fields[i + 1];
      }
    }
  }

  /** Where the pieces of the query lie. */
  lemma QueryPieces(prefix: string, group: string, rest: string)
    requires rest != ""
    ensures var query, p := HEAD + group + rest, |prefix| + 1;
            var s := prefix + query;
            && StatsHead(s, p) && query[..2] == " |" && Part(s, p + 12, p + 12 + |group|, group)
            && s[|prefix|] == ' ' && s[p + 12 + |group|] == rest[0]
  {
    var query := HEAD + group + rest;
    var s, p := prefix + query, |prefix| + 1;
    assert s[p..] == query[1..] == STATS + group + rest;
    assert s[p..p + 12] == s[p..][..12] == STATS;
    assert s[p + 12..] == s[p..][12..] == group + rest;
    assert s[p + 12..p + 12 + |group|] == s[p + 12..][..|group|] == group;
  }

  lemma StagesFound(prefix: string, group: string, rest: string)
    requires NoStats(prefix) && GroupText(group) && rest != "" && rest[0] == ')'
    ensures FirstStatsBy(prefix + (HEAD + group + rest), 0) == Some(group)
    ensures FirstStats(prefix + (HEAD + group + rest), 0) == Some(|prefix| + 1)
  {
    QueryPieces(prefix, group, rest);
    NoneBefore(prefix, HEAD + group + rest);
    FirstIsAt(prefix + (HEAD + group + rest), |prefix| + 1, group);
  }

  lemma NoneBefore(prefix: string, query: string)
    requires NoStats(prefix) && |query| >= 2 && query[..2] == " |"
    ensures forall k | 0 <= k < |prefix| + 1 :: !StatsAt(prefix + query, k)
  {
    assert query[0] == query[..2][0] == ' ' && query[1] == query[..2][1] == '|';
    forall k | 0 <= k < |prefix| + 1
      ensures !StatsAt(prefix + query, k)
    {
      if k < |prefix| {
        StatsStaysOut(prefix, query, k);
      } else {
        assert (prefix + query)[k] == ' ';
      }
    }
  }

  lemma FirstIsAt(s: string, p: nat, group: string)
    requires StatsHead(s, p) && Part(s, p + 12, p + 12 + |group|, group) && GroupText(group)
    requires p + 12 + |group| < |s| && s[p + 12 + |group|] == ')'
    requires forall k | 0 <= k < p :: !StatsAt(s, k)
    ensures FirstStatsBy(s, 0) == Some(group) && FirstStats(s, 0) == Some(p)
  {
    forall k | p + 12 <= k < p + 12 + |group|
      ensures s[k] != ')'
    {
      assert s[k] == group[k - p - 12] && GroupTextAt(group, k - p - 12);
    }
    HeadMatches(s, p, p + 12 + |group|);
    FirstStatsFrom(s, 0, p);
    FirstStatsByFrom(s, 0, p);
  }

  // ------------------------------------------------------------------ queries without a group

  const TOTAL_HEAD := "| stats count() as "

  /** The total query of category_queries. */
  function Total(prefix: string): string {
    prefix + " " + TOTAL_HEAD + MESSAGES_COUNT + SIZE_CALL + MESSAGE_SIZE
  }

  lemma {:induction false} NoStatsBy(s: string, i: nat)
    requires i <= |s| && forall k | i <= k < |s| :: StatsByAt(s, k).None?
    ensures FirstStatsBy(s, i).None?
    decreases |s| - i
  {
    if i < |s| {
      NoStatsBy(s, i + 1);
    }
  }

  lemma TotalLeads()
    ensures Leads(TOTAL_HEAD) && |TOTAL_HEAD| == 19 && TOTAL_HEAD[0] == '|' && TOTAL_HEAD[1] == ' ' && !Space(TOTAL_HEAD[2])
    ensures TOTAL_HEAD[2] == 's' && TOTAL_HEAD[3] == 't' && TOTAL_HEAD[4] == 'a' && TOTAL_HEAD[5] == 't' && TOTAL_HEAD[6] == 's'
    ensures TOTAL_HEAD[7] == ' ' && TOTAL_HEAD[8] == 'c' && forall k | 1 <= k < |TOTAL_HEAD| :: TOTAL_HEAD[k] != '|'
  {
  }

  lemma TotalRestHasNoPipe()
    ensures forall k | 0 <= k < |MESSAGES_COUNT + SIZE_CALL + MESSAGE_SIZE| :: (MESSAGES_COUNT + SIZE_CALL + MESSAGE_SIZE)[k] != '|'
  {
    assert forall k | 0 <= k < |MESSAGES_COUNT| :: MESSAGES_COUNT[k] != '|';
    assert forall k | 0 <= k < |SIZE_CALL| :: SIZE_CALL[k] != '|';
    assert forall k | 0 <= k < |MESSAGE_SIZE| :: MESSAGE_SIZE[k] != '|';
  }

  /** A stage without a group starts at p, and there is no pipe behind it. */
  predicate StageAt(s: string, p: nat) {
    && p + 9 <= |s| && s[p] == '|' && s[p + 1] == ' ' && s[p + 2] == 's' && s[p + 3] == 't' && s[p + 4] == 'a' && s[p + 5] == 't'
    && s[p + 6] == 's' && s[p + 7] == ' ' && s[p + 8] == 'c'
    && forall k | p < k < |s| :: s[k] != '|'
  }

  lemma TotalStage(s: string, p: nat, rest: string)
    requires p <= |s| && s[p..] == TOTAL_HEAD + rest && forall k | 0 <= k < |rest| :: rest[k] != '|'
    ensures StageAt(s, p)
  {
    TotalLeads();
    var stage := TOTAL_HEAD + rest;
    assert forall k | p <= k < |s| :: s[k] == s[p..][k - p];
    assert forall k | 1 <= k < |stage| :: stage[k] != '|';
  }

  lemma StageWord(s: string, p: nat)
    requires StageAt(s, p)
    ensures StatsAt(s, p) && StatsByAt(s, p).None?
  {
    OneSpace(s, p + 1);
    assert WordAt(s, p + 2, "stats");
    assert StatsWord(s, p) == Some(p + 7);
    OneSpace(s, p + 7);
    assert !SameLetter(s[p + 8 + 0], "by"[0]);
  }

  /** Where no other stage is before it, it is the first, and no group is found. */
  lemma StageIsFirst(s: string, p: nat)
    requires StageAt(s, p) && forall k | 0 <= k < p :: !StatsAt(s, k)
    ensures FirstStats(s, 0) == Some(p) && FirstStatsBy(s, 0).None?
  {
    StageWord(s, p);
    FirstStatsFrom(s, 0, p);
    forall k | 0 <= k < |s|
      ensures StatsByAt(s, k).None?
    {
      if k < p {
        NoStageNoGroup(s, k);
      } else if k > p {
        assert s[k] != '|';
      }
    }
    NoStatsBy(s, 0);
  }

  lemma NoStageNoGroup(s: string, k: nat)
    requires k < |s| && !StatsAt(s, k)
    ensures StatsByAt(s, k).None?
  {
    if StatsByAt(s, k).Some? {
      StatsByIsStats(s, k);
    }
  }

  /** The columns of a total query are the two aliases. */
  lemma TotalColumns(prefix: string)
    requires NoStats(prefix)
    ensures Inferred(Total(prefix)) == [MESSAGES_COUNT, MESSAGE_SIZE]
  {
    var s, p := Total(prefix), |prefix| + 1;
    TotalIsFound(prefix);
    TotalLeads();
    SizeLeads();
    AliasLiterals();
    AliasesOfStage(TOTAL_HEAD, MESSAGES_COUNT, SIZE_CALL, MESSAGE_SIZE);
    AppendBothIff([], MESSAGES_COUNT, MESSAGE_SIZE);
  }

  lemma TotalIsFound(prefix: string)
    requires NoStats(prefix)
    ensures var s, p := Total(prefix), |prefix| + 1;
            && FirstStats(s, 0) == Some(p) && FirstStatsBy(s, 0).None?
            && s[p..] == TOTAL_HEAD + MESSAGES_COUNT + SIZE_CALL + MESSAGE_SIZE
  {
    var rest := MESSAGES_COUNT + SIZE_CALL + MESSAGE_SIZE;
    AfterSpace(prefix, TOTAL_HEAD, MESSAGES_COUNT, SIZE_CALL, MESSAGE_SIZE);
    TotalLeads();
    TotalRestHasNoPipe();
    NoneBefore(prefix, " " + (TOTAL_HEAD + rest));
    TotalStage(Total(prefix), |prefix| + 1, rest);
    StageIsFirst(Total(prefix), |prefix| + 1);
  }

  lemma AfterSpace(prefix: string, head: string, x: string, between: string, y: string)
    ensures var s := prefix + " " + head + x + between + y;
            && s == prefix + (" " + (head + (x + between + y)))
            && s[|prefix| + 1..] == head + (x + between + y) == head + x + between + y
  {
  }

  lemma AliasesOfStage(head: string, x: string, between: string, y: string)
    requires Leads(head) && Name(x) && Leads(between) && EndsName(between) && Name(y)
    ensures Aliases(head + x + between + y, 0) == [x, y]
  {
    Pieces(head, x, between, y, "");
    var s := head + x + between + y;
    assert s + "" == s;
    TwoAliases(s, head, |head|, x, |head + x|, between, |head + x + between|, y, |s|, "");
  }

  /** Without any stats stage the aliases of the whole query are the columns. */
  lemma NoStageColumns(query: string, lead: string, name: string, rest: string)
    requires query == lead + name + rest && NoStats(query)
    requires Leads(lead) && Name(name) && (rest == "" || EndsName(rest)) && QuietUpTo(rest, |rest|)
    ensures Inferred(query) == [name]
  {
    NoFirstStats(query, 0);
    forall k | 0 <= k < |query|
      ensures StatsByAt(query, k).None?
    {
      NoStageNoGroup(query, k);
    }
    NoStatsBy(query, 0);
    Pieces(lead, name, rest, "", "");
    assert query == lead + name + rest + "" + "";
    var e := |lead + name|;
    assert rest != "" ==> query[e] == rest[0];
    OneAlias(query, 0, lead, |lead|, name, e);
    forall k | e + 2 <= k < |query| + 2
      ensures !AsBefore(query, k)
    {
      if k < |query| {
        PartQuiet(query, e, |query|, rest, k);
      }
    }
    SkipQuiet(query, e, |query|);
    assert Aliases(query, 0) == [name];
    AppendOne([], name);
  }

  lemma {:induction false} NoFirstStats(s: string, i: nat)
    requires i <= |s| && forall k | i <= k < |s| :: !StatsAt(s, k)
    ensures FirstStats(s, i).None?
    decreases |s| - i
  {
    if i < |s| {
      NoFirstStats(s, i + 1);
    }
  }

  /** Which field names are printed, and how: plain words as they are, names with a dot, slash or
      hyphen in quotes. */
  lemma PrintedField(field: string)
    ensures FieldName(field).Some? <==>
            && field != "" && ('a' <= field[0] <= 'z' || 'A' <= field[0] <= 'Z' || field[0] == '_')
            && forall i | 0 <= i < |field| ::
                 'a' <= field[i] <= 'z' || 'A' <= field[i] <= 'Z' || '0' <= field[i] <= '9' || field[i] in "_./-"
    ensures FieldName(field).Some? ==>
              FieldName(field).value == if '.' in field || '/' in field || '-' in field then "\"" + field + "\"" else field
  {
  }

  /** The promised list, fields followed by both aliases, comes out exactly when no field has an
      alias's name. */
  lemma ColumnsAsPromisedIff(prefix: string, fields: seq<string>, topLimit: nat)
    requires NoStats(prefix) && AllValid(fields)
    ensures TopByCount(prefix, fields, topLimit).Some?
    ensures Inferred(TopByCount(prefix, fields, topLimit).value) == fields + [MESSAGES_COUNT, MESSAGE_SIZE]
            <==> MESSAGES_COUNT !in fields && MESSAGE_SIZE !in fields
  {
    InferenceUndoesPrinting(prefix, fields, topLimit);
    AliasLiterals();
    AppendBothIff(fields, MESSAGES_COUNT, MESSAGE_SIZE);
  }

  lemma AppendBothIff(columns: seq<string>, x: string, y: string)
    requires x != y
    ensures AppendNew(columns, [x, y]) == columns + [x, y] <==> x !in columns && y !in columns
  {
    var once := if x in columns then columns else columns + [x];
    assert [x, y][1..] == [y];
    assert AppendNew(columns, [x, y]) == AppendNew(once, [y]);
    AppendOne(once, y);
  }

  lemma AppendOne(columns: seq<string>, x: string)
    ensures AppendNew(columns, [x]) == if x in columns then columns else columns + [x]
  {
    assert [x][1..] == [];
  }

  /** A field named like an alias: a list one short of the promised three. */
  lemma AliasNamedField(prefix: string, topLimit: nat)
    requires NoStats(prefix)
    ensures TopByCount(prefix, [MESSAGES_COUNT], topLimit).Some?
    ensures Inferred(TopByCount(prefix, [MESSAGES_COUNT], topLimit).value) == [MESSAGES_COUNT, MESSAGE_SIZE]
  {
    AliasLiterals();
    assert FieldPattern(MESSAGES_COUNT);
    InferenceUndoesPrinting(prefix, [MESSAGES_COUNT], topLimit);
    AppendPresent(MESSAGES_COUNT, MESSAGE_SIZE);
  }

  lemma AppendPresent(x: string, y: string)
    requires x != y
    ensures AppendNew([x], [x, y]) == [x, y]
  {
    assert [x, y][1..] == [y] && [y][1..] == [];
    assert AppendNew([x], [x, y]) == AppendNew([x], [y]) == AppendNew([x] + [y], []);
  }

  // ------------------------------------------------------------------ the prefixes the tool prints

  /** DURATION_PATTERN */
  predicate Duration(s: string) {
    && |s| >= 2
    && (forall i | 0 <= i < |s| - 1 :: Digit(s[i]))
    && (s[0] == '0' ==> |s| == 2)
    && s[|s| - 1] in "smhdw"
  }

  /** victorialogs_time_filter */
  function TimeFilter(range: string, offset: string): string
    requires Duration(offset)
  {
    if offset[0] == '0' then "_time:" + range else "_time:" + range + " offset " + offset
  }

  const SYSTEM := "log_category:system"
  const AUDIT := "(log_category:audit OR nc_audit_label:true)"
  const CONTAINER := "log_category:container"
  const NO_EVENTS := " NOT kind:KubernetesEvent"
  const NO_AUDIT := " NOT nc_audit_label:true"

  const SYSTEM_FILTER := SYSTEM + NO_EVENTS
  const AUDIT_FILTER := AUDIT + NO_EVENTS
  const CONTAINER_FILTER := CONTAINER + NO_EVENTS + NO_AUDIT

  predicate NoPipe(s: string) {
    forall i | 0 <= i < |s| :: s[i] != '|'
  }

  lemma NoPipeConcat(a: string, b: string)
    requires NoPipe(a) && NoPipe(b)
    ensures NoPipe(a + b)
  {
  }

  lemma NoPipeNoStats(prefix: string)
    requires NoPipe(prefix)
    ensures NoStats(prefix)
  {
  }

  lemma FilterWords()
    ensures NoPipe(SYSTEM) && NoPipe(AUDIT) && NoPipe(CONTAINER) && NoPipe(NO_EVENTS) && NoPipe(NO_AUDIT)
  {
  }

  lemma FiltersHaveNoPipe()
    ensures NoPipe(SYSTEM_FILTER) && NoPipe(AUDIT_FILTER) && NoPipe(CONTAINER_FILTER)
  {
    FilterWords();
    NoPipeConcat(SYSTEM, NO_EVENTS);
    NoPipeConcat(AUDIT, NO_EVENTS);
    NoPipeConcat(CONTAINER, NO_EVENTS);
    NoPipeConcat(CONTAINER + NO_EVENTS, NO_AUDIT);
  }

  lemma TimeFilterHasNoPipe(range: string, offset: string)
    requires Duration(range) && Duration(offset)
    ensures NoPipe(TimeFilter(range, offset))
  {
    NoPipeConcat("_time:", range);
    NoPipeConcat("_time:" + range, " offset ");
    NoPipeConcat("_time:" + range + " offset ", offset);
  }

  /** Every prefix that the report prints for a category, over any time range, has no stats stage
      of its own, so the theorem above applies to all of its queries. */
  lemma CategoryPrefixes(range: string, offset: string, filter: string)
    requires Duration(range) && Duration(offset)
    requires filter == SYSTEM_FILTER || filter == AUDIT_FILTER || filter == CONTAINER_FILTER
    ensures NoStats(TimeFilter(range, offset) + " " + filter)
  {
    TimeFilterHasNoPipe(range, offset);
    FiltersHaveNoPipe();
    NoPipeConcat(TimeFilter(range, offset), " ");
    NoPipeConcat(TimeFilter(range, offset) + " ", filter);
    NoPipeNoStats(TimeFilter(range, offset) + " " + filter);
  }
}
