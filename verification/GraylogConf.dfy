/** Rewriting graylog.conf when the Graylog Secret changes (watch-secret.go): the text is
    scanned into lines, the lines that start with a field are replaced, and all lines are
    written back with CRLF. */
module GraylogConf {
  import opened Wrappers

  const USER_FIELD := "root_username"
  const PASSWORD_FIELD := "root_password_sha2"

  function DropCR(line: string): string {
    if line != "" && line[|line| - 1] == '\r' then line[..|line| - 1] else line
  }

  /** Index of the first line feed, or the length of the text. */
  function LineEnd(text: string): (n: nat)
    ensures n <= |text| && (n < |text| ==> text[n] == '\n')
    ensures forall i | 0 <= i < n :: text[i] != '\n'
  {
    if text == "" || text[0] == '\n' then 0
    else
      var n := LineEnd(text[1..]);
      assert forall i | 1 <= i < |text| :: text[i] == text[1..][i - 1];
      n + 1
  }

  /** bufio.ScanLines over the whole text. */
  function Scan(text: string): seq<string> {
    if text == "" then []
    else
      var n := LineEnd(text);
      if n == |text| then [DropCR(text)] else [DropCR(text[..n])] + Scan(text[n + 1..])
  }

  function Write(lines: seq<string>): string {
    if lines == [] then "" else lines[0] + "\r\n" + Write(lines[1..])
  }

  predicate HasPrefix(line: string, prefix: string) {
    prefix <= line
  }

  predicate Matches(lines: seq<string>, field: string) {
    exists i | 0 <= i < |lines| :: HasPrefix(lines[i], field)
  }

  function FieldLine(field: string, value: string): string {
    field + " = " + value
  }

  function Replaced(lines: seq<string>, field: string, value: string): seq<string> {
    seq(|lines|, i requires 0 <= i < |lines| => if HasPrefix(lines[i], field) then FieldLine(field, value) else lines[i])
  }

  /** The configuration after an update; it is written only if some line matched. */
  function Updated(config: string, field: string, value: string): string {
    var lines := Scan(config);
    if Matches(lines, field) then Write(Replaced(lines, field, value)) else config
  }

  // ------------------------------------------------------------------ the loops

  method ScanLines(config: string) returns (lines: seq<string>)
    ensures lines == Scan(config)
  {
    lines := [];
    var rest := config;
    while rest != ""
      invariant lines + Scan(rest) == Scan(config)
      decreases |rest|
    {
      var n := LineEnd(rest);
      if n == |rest| {
        lines := lines + [DropCR(rest)];
        rest := "";
      } else {
        lines := lines + [DropCR(rest[..n])];
        rest := rest[n + 1..];
      }
    }
  }

  lemma {:induction false} WriteAppend(lines: seq<string>, line: string)
    ensures Write(lines + [line]) == Write(lines) + (line + "\r\n")
  {
    if lines == [] {
      assert [line][1..] == [];
      assert Write([]) == "";
    } else {
      WriteAppend(lines[1..], line);
      assert (lines + [line])[1..] == lines[1..] + [line];
    }
  }

  /** The shared part of updateUser and updatePassword: rewrites the lines in place and
      appends each to the result. */
  method Update(config: string, field: string, value: string) returns (updated: string)
    ensures updated == Updated(config, field, value)
  {
    var scanned := ScanLines(config);
    var lines := new string[|scanned|](i requires 0 <= i < |scanned| => scanned[i]);
    var result, changed := "", false;
    ghost var all := Replaced(scanned, field, value);
    for i := 0 to lines.Length
      invariant forall k | i <= k < lines.Length :: lines[k] == scanned[k]
      invariant result == Write(all[..i])
      invariant changed == Matches(scanned[..i], field)
    {
      MatchesAppend(scanned, i, field);
      WriteAppend(all[..i], all[i]);
      assert all[..i + 1] == all[..i] + [all[i]];
      if HasPrefix(lines[i], field) {
        lines[i] := FieldLine(field, value);
        changed := true;
      }
      assert lines[i] == all[i];
      result := result + (lines[i] + "\r\n");
    }
    assert all[..|scanned|] == all && scanned[..|scanned|] == scanned;
    updated := if changed then result else config;
  }

  lemma MatchesAppend(lines: seq<string>, i: nat, field: string)
    requires i < |lines|
    ensures Matches(lines[..i + 1], field) <==> Matches(lines[..i], field) || HasPrefix(lines[i], field)
  {
    if Matches(lines[..i], field) {
      var k :| 0 <= k < i && HasPrefix(lines[..i][k], field);
      assert lines[..i + 1][k] == lines[k];
    } else if HasPrefix(lines[i], field) {
      assert lines[..i + 1][i] == lines[i];
    } else {
      assert forall k | 0 <= k < i :: lines[..i + 1][k] == lines[..i][k];
    }
  }

  // ------------------------------------------------------------------ scanning undoes writing

  predicate NoLF(s: string) {
    forall i | 0 <= i < |s| :: s[i] != '\n'
  }

  predicate AllNoLF(lines: seq<string>) {
    forall i | 0 <= i < |lines| :: NoLF(lines[i])
  }

  lemma LineEndAt(line: string, rest: string)
    requires NoLF(line)
    ensures LineEnd(line + "\n" + rest) == |line|
  {
    var t := line + "\n" + rest;
    assert t[|line|] == '\n';
    assert forall i | 0 <= i < |line| :: t[i] == line[i];
  }

  lemma {:induction false} ScanUndoesWrite(lines: seq<string>)
    requires AllNoLF(lines)
    ensures Scan(Write(lines)) == lines
  {
    if lines != [] {
      var line, rest := lines[0] + "\r", Write(lines[1..]);
      assert Write(lines) == line + "\n" + rest;
      LineEndAt(line, rest);
      assert Write(lines)[..|line|] == line && Write(lines)[|line| + 1..] == rest;
      assert DropCR(line) == lines[0];
      ScanUndoesWrite(lines[1..]);
    }
  }

  lemma {:induction false} ScannedLinesHaveNoLF(text: string)
    ensures AllNoLF(Scan(text))
    decreases |text|
  {
    if text != "" && LineEnd(text) < |text| {
      ScannedLinesHaveNoLF(text[LineEnd(text) + 1..]);
    }
  }

  lemma FieldLineNoLF(field: string, value: string)
    requires NoLF(field)
    ensures NoLF(FieldLine(field, value)) <==> NoLF(value)
  {
    var l, n := FieldLine(field, value), |field| + 3;
    assert forall i | 0 <= i < |value| :: l[n + i] == value[i];
    assert l[..n] == field + " = ";
    assert forall i | 0 <= i < n :: l[i] == (field + " = ")[i];
  }

  /** An update changes exactly the lines that start with the field. */
  lemma UpdateChangesOnlyField(config: string, field: string, value: string)
    requires NoLF(field) && NoLF(value)
    ensures Scan(Updated(config, field, value)) == Replaced(Scan(config), field, value)
  {
    var lines := Scan(config);
    ScannedLinesHaveNoLF(config);
    FieldLineNoLF(field, value);
    if Matches(lines, field) {
      ScanUndoesWrite(Replaced(lines, field, value));
    }
  }

  /** Line by line, as the file is read: a line that starts with the field becomes field, equals
      sign and value, and every other one stays; without such a line the text stays. */
  lemma UpdatedLines(config: string, field: string, value: string)
    requires NoLF(field) && NoLF(value)
    ensures var was, now := Scan(config), Scan(Updated(config, field, value));
            && |now| == |was|
            && forall i | 0 <= i < |was| :: now[i] == if field <= was[i] then field + " = " + value else was[i]
    ensures (forall i | 0 <= i < |Scan(config)| :: !(field <= Scan(config)[i])) ==> Updated(config, field, value) == config
  {
    UpdateChangesOnlyField(config, field, value);
  }

  lemma ReplacedTwice(lines: seq<string>, field: string, value: string)
    ensures Replaced(Replaced(lines, field, value), field, value) == Replaced(lines, field, value)
    ensures Matches(Replaced(lines, field, value), field) <==> Matches(lines, field)
  {
    var r := Replaced(lines, field, value);
    assert HasPrefix(FieldLine(field, value), field);
    forall i | 0 <= i < |lines|
      ensures HasPrefix(r[i], field) <==> HasPrefix(lines[i], field)
    {
    }
  }

  lemma UpdateIdempotentWithoutLF(config: string, field: string, value: string)
    requires NoLF(field) && NoLF(value)
    ensures Updated(Updated(config, field, value), field, value) == Updated(config, field, value)
  {
    UpdateChangesOnlyField(config, field, value);
    ReplacedTwice(Scan(config), field, value);
  }

  // ------------------------------------------------------------------ values with line feeds

  function CountLF(s: string): nat {
    if s == "" then 0 else (if s[0] == '\n' then 1 else 0) + CountLF(s[1..])
  }

  function SumLF(lines: seq<string>): nat {
    if lines == [] then 0 else CountLF(lines[0]) + SumLF(lines[1..])
  }

  lemma {:induction false} CountConcat(a: string, b: string)
    ensures CountLF(a + b) == CountLF(a) + CountLF(b)
  {
    if a == "" {
      assert a + b == b;
    } else {
      CountConcat(a[1..], b);
      assert (a + b)[1..] == a[1..] + b;
    }
  }

  lemma {:induction false} CountZeroIff(s: string)
    ensures CountLF(s) == 0 <==> NoLF(s)
  {
    if s != "" {
      CountZeroIff(s[1..]);
      assert s == [s[0]] + s[1..];
    }
  }

  lemma {:induction false} CountWrite(lines: seq<string>)
    ensures CountLF(Write(lines)) == |lines| + SumLF(lines)
  {
    if lines != [] {
      CountWrite(lines[1..]);
      CountConcat(lines[0] + "\r\n", Write(lines[1..]));
      CountConcat(lines[0], "\r\n");
      assert "\r\n"[1..] == "\n" && "\n"[1..] == "";
      assert CountLF("\r\n") == 1;
    }
  }

  /** A text that ends with a line feed has as many lines as line feeds. */
  lemma {:induction false} CountScan(text: string)
    requires text == "" || text[|text| - 1] == '\n'
    ensures |Scan(text)| == CountLF(text)
    decreases |text|
  {
    if text != "" {
      var n := LineEnd(text);
      var line, rest := text[..n], text[n + 1..];
      assert text == line + "\n" + rest;
      CountConcat(line + "\n", rest);
      CountConcat(line, "\n");
      CountZeroIff(line);
      assert "\n"[1..] == "";
      CountScan(rest);
    }
  }

  lemma WriteEndsWithLF(lines: seq<string>)
    ensures Write(lines) == "" || Write(lines)[|Write(lines)| - 1] == '\n'
  {
    if lines != [] {
      WriteEndsWithLF(lines[1..]);
    }
  }

  lemma {:induction false} SumReplaced(lines: seq<string>, field: string, value: string)
    requires AllNoLF(lines)
    ensures Matches(lines, field) ==> SumLF(Replaced(lines, field, value)) >= CountLF(FieldLine(field, value))
  {
    if lines != [] {
      var r := Replaced(lines, field, value);
      assert r[1..] == Replaced(lines[1..], field, value);
      SumReplaced(lines[1..], field, value);
      if Matches(lines, field) && !HasPrefix(lines[0], field) {
        var i :| 0 <= i < |lines| && HasPrefix(lines[i], field);
        assert lines[1..][i - 1] == lines[i];
      }
    }
  }

  /** The first scanned line of a text keeps a prefix that has no line end in it. */
  lemma FirstLineKeepsPrefix(text: string, prefix: string)
    requires prefix != "" && prefix <= text && NoLF(prefix) && prefix[|prefix| - 1] != '\r'
    ensures Scan(text) != [] && HasPrefix(Scan(text)[0], prefix)
  {
    var n := LineEnd(text);
    assert forall i | 0 <= i < |prefix| :: text[i] == prefix[i];
    assert |prefix| <= n;
    var line := text[..n];
    assert prefix <= line;
    if line[n - 1] == '\r' {
      assert |prefix| != n;
    }
  }

  lemma ScanFirstLine(line: string, rest: string)
    requires NoLF(line)
    ensures Scan(line + "\n" + rest) == [DropCR(line)] + Scan(rest)
  {
    var t := line + "\n" + rest;
    LineEndAt(line, rest);
    assert t[..|line|] == line && t[|line| + 1..] == rest;
  }

  lemma ScanSplitsLine(line: string, rest: string, b: string)
    requires NoLF(line) && Scan(rest + b) == Scan(rest) + Scan(b)
    ensures Scan(line + "\n" + rest + b) == Scan(line + "\n" + rest) + Scan(b)
  {
    var all, head, x, y := line + "\n" + rest + b, line + "\n" + rest, Scan(rest), Scan(b);
    var first := [DropCR(line)];
    assert Scan(all) == first + (x + y) by {
      Regroup(line, rest, b);
      ScanFirstLine(line, rest + b);
    }
    assert Scan(head) == first + x by {
      ScanFirstLine(line, rest);
    }
    Associative(first, x, y);
  }

  lemma Regroup(line: string, rest: string, b: string)
    ensures line + "\n" + rest + b == line + "\n" + (rest + b)
  {
  }

  lemma {:induction false} ScanSplits(a: string, b: string)
    requires a == "" || a[|a| - 1] == '\n'
    ensures Scan(a + b) == Scan(a) + Scan(b)
    decreases |a|
  {
    if a == "" {
      assert a + b == b;
    } else {
      var n := LineEnd(a);
      assert a == a[..n] + "\n" + a[n + 1..];
      ScanSplits(a[n + 1..], b);
      ScanSplitsLine(a[..n], a[n + 1..], b);
    }
  }

  lemma {:induction false} MatchSurvivesWriting(lines: seq<string>, prefix: string)
    requires prefix != "" && NoLF(prefix) && prefix[|prefix| - 1] != '\r'
    requires Matches(lines, prefix)
    ensures Matches(Scan(Write(lines)), prefix)
  {
    var head, tail := lines[0] + "\r\n", Write(lines[1..]);
    ScanSplits(head, tail);
    if HasPrefix(lines[0], prefix) {
      FirstLineKeepsPrefix(head, prefix);
      assert HasPrefix(Scan(Write(lines))[0], prefix);
    } else {
      var i :| 0 <= i < |lines| && HasPrefix(lines[i], prefix);
      assert lines[1..][i - 1] == lines[i];
      MatchSurvivesWriting(lines[1..], prefix);
      var k :| 0 <= k < |Scan(tail)| && HasPrefix(Scan(tail)[k], prefix);
      assert Scan(Write(lines))[|Scan(head)| + k] == Scan(tail)[k];
    }
  }

  /** With a line feed in the value every further update makes the text longer. */
  lemma UpdateGrowsWithLF(config: string, field: string, value: string)
    requires field != "" && NoLF(field) && field[|field| - 1] != '\r'
    requires Matches(Scan(config), field) && !NoLF(value)
    ensures CountLF(Updated(Updated(config, field, value), field, value)) > CountLF(Updated(config, field, value))
  {
    var lines := Scan(config);
    var once := Updated(config, field, value);
    var written := Replaced(lines, field, value);
    ReplacedTwice(lines, field, value);
    MatchSurvivesWriting(written, field);
    WriteEndsWithLF(written);
    CountScan(once);
    ScannedLinesHaveNoLF(once);
    SumReplaced(Scan(once), field, value);
    CountWrite(Replaced(Scan(once), field, value));
    FieldLineNoLF(field, value);
    CountZeroIff(FieldLine(field, value));
  }

  /** An update is idempotent exactly when the value has no line feed or no line matches. */
  lemma UpdateIdempotentIff(config: string, field: string, value: string)
    requires field != "" && NoLF(field) && field[|field| - 1] != '\r'
    ensures Updated(Updated(config, field, value), field, value) == Updated(config, field, value) <==>
            NoLF(value) || !Matches(Scan(config), field)
  {
    if NoLF(value) {
      UpdateIdempotentWithoutLF(config, field, value);
    } else if Matches(Scan(config), field) {
      UpdateGrowsWithLF(config, field, value);
    }
  }

  // ------------------------------------------------------------------ the two updates

  lemma FieldsAreUnrelated()
    ensures NoLF(USER_FIELD) && NoLF(PASSWORD_FIELD)
    ensures forall line :: !(HasPrefix(line, USER_FIELD) && HasPrefix(line, PASSWORD_FIELD))
  {
    assert USER_FIELD[5] == 'u' && PASSWORD_FIELD[5] == 'p';
  }

  lemma ReplacedCommute(lines: seq<string>, user: string, digest: string)
    ensures Replaced(Replaced(lines, USER_FIELD, user), PASSWORD_FIELD, digest)
            == Replaced(Replaced(lines, PASSWORD_FIELD, digest), USER_FIELD, user)
    ensures Matches(Replaced(lines, USER_FIELD, user), PASSWORD_FIELD) <==> Matches(lines, PASSWORD_FIELD)
    ensures Matches(Replaced(lines, PASSWORD_FIELD, digest), USER_FIELD) <==> Matches(lines, USER_FIELD)
  {
    FieldsAreUnrelated();
    assert HasPrefix(FieldLine(USER_FIELD, user), USER_FIELD) && HasPrefix(FieldLine(PASSWORD_FIELD, digest), PASSWORD_FIELD);
    var u, p := Replaced(lines, USER_FIELD, user), Replaced(lines, PASSWORD_FIELD, digest);
    forall i | 0 <= i < |lines|
      ensures HasPrefix(u[i], PASSWORD_FIELD) <==> HasPrefix(lines[i], PASSWORD_FIELD)
      ensures HasPrefix(p[i], USER_FIELD) <==> HasPrefix(lines[i], USER_FIELD)
    {
    }
  }

  lemma ReplacedWithoutMatch(lines: seq<string>, field: string, value: string)
    ensures !Matches(lines, field) ==> Replaced(lines, field, value) == lines
  {
  }
}
