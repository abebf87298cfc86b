/** Whether the user rewrite and the password rewrite of graylog.conf commute. They are written
    and scanned line by line, so the only obstacle is a user name that holds line feeds. */
module GraylogConfOrder {
  import opened Wrappers
  import opened GraylogConf

  /** Every line feed follows a carriage return. */
  predicate Normalized(s: string) {
    forall i | 0 <= i < |s| :: NormalizedAt(s, i)
  }

  predicate NormalizedAt(s: string, i: nat)
    requires i < |s|
  {
    s[i] == '\n' ==> 0 < i && s[i - 1] == '\r'
  }

  /** The lines that a rewritten user line is scanned into. */
  function UserLines(user: string): seq<string> {
    Scan(FieldLine(USER_FIELD, user) + "\r\n")
  }

  /** The user name comes through another rewrite of the file as it is, and no line in it is one
      that the password rewrite would change. */
  predicate Survives(user: string, digest: string) {
    Normalized(user) && Undisturbed(UserLines(user), digest)
  }

  predicate Undisturbed(lines: seq<string>, digest: string) {
    forall i | 0 <= i < |lines| && HasPrefix(lines[i], PASSWORD_FIELD) :: lines[i] == FieldLine(PASSWORD_FIELD, digest)
  }

  // ------------------------------------------------------------------ concatenation

  lemma {:induction false} WriteConcat(a: seq<string>, b: seq<string>)
    ensures Write(a + b) == Write(a) + Write(b)
  {
    if a == [] {
      assert a + b == b;
    } else {
      WriteConcat(a[1..], b);
      assert (a + b)[1..] == a[1..] + b;
      Associative(a[0] + "\r\n", Write(a[1..]), Write(b));
    }
  }

  lemma ReplacedConcat(a: seq<string>, b: seq<string>, field: string, value: string)
    ensures Replaced(a + b, field, value) == Replaced(a, field, value) + Replaced(b, field, value)
  {
  }

  lemma NormalizedConcat(a: string, b: string)
    ensures Normalized(a + b) ==> Normalized(a)
    ensures Normalized(a) && Normalized(b) ==> Normalized(a + b)
    ensures Normalized(a + b) && (a == "" || a[|a| - 1] != '\r') ==> Normalized(b)
  {
    var t := a + b;
    forall i | 0 <= i < |a|
      ensures NormalizedAt(t, i) <==> NormalizedAt(a, i)
    {
      assert t[i] == a[i] && (0 < i ==> t[i - 1] == a[i - 1]);
    }
    forall i | 0 <= i < |b|
      ensures NormalizedAt(b, i) ==> NormalizedAt(t, |a| + i)
      ensures NormalizedAt(t, |a| + i) && (0 < i || a == "" || a[|a| - 1] != '\r') ==> NormalizedAt(b, i)
    {
      assert t[|a| + i] == b[i] && (0 < i ==> t[|a| + i - 1] == b[i - 1]);
      assert i == 0 && a != "" ==> t[|a| - 1] == a[|a| - 1];
    }
    if Normalized(a) && Normalized(b) {
      forall i | 0 <= i < |t|
        ensures NormalizedAt(t, i)
      {
        assert i < |a| ==> NormalizedAt(a, i);
        assert i >= |a| ==> NormalizedAt(b, i - |a|);
      }
    }
  }

  // ------------------------------------------------------------------ writing undoes scanning

  lemma LineIsNormalized(line: string)
    requires NoLF(line)
    ensures Normalized(line + "\r\n")
  {
    var t := line + "\r\n";
    assert t[|line|] == '\r' && forall i | 0 <= i < |line| :: t[i] == line[i];
    forall i | 0 <= i < |t|
      ensures NormalizedAt(t, i)
    {
      assert i < |line| ==> line[i] != '\n';
    }
  }

  lemma {:induction false} NoLFWritesNormalized(lines: seq<string>)
    requires AllNoLF(lines)
    ensures Normalized(Write(lines))
  {
    if lines != [] {
      NoLFWritesNormalized(lines[1..]);
      LineIsNormalized(lines[0]);
      NormalizedConcat(lines[0] + "\r\n", Write(lines[1..]));
    }
  }

  /** A text that ends a line is written back as it was scanned exactly if it is normalized. */
  lemma {:induction false} WriteUndoesScanIff(text: string)
    requires text == "" || text[|text| - 1] == '\n'
    ensures Write(Scan(text)) == text <==> Normalized(text)
    decreases |text|
  {
    ScannedLinesHaveNoLF(text);
    NoLFWritesNormalized(Scan(text));
    if text != "" && Normalized(text) {
      var n := LineEnd(text);
      assert text[|text| - 1] == '\n' && NormalizedAt(text, n);
      FirstLineWritten(text, n);
      RestIsNormalized(text, n + 1);
      WriteUndoesScanIff(text[n + 1..]);
    }
  }

  lemma FirstLineWritten(text: string, n: nat)
    requires n < |text| && text[n] == '\n' && NormalizedAt(text, n)
    ensures DropCR(text[..n]) + "\r\n" + text[n + 1..] == text
  {
    var line, rest := text[..n], text[n + 1..];
    assert text == line + "\n" + rest;
    DropCRBack(line);
    JoinEnds(DropCR(line), line, rest);
  }

  lemma RestIsNormalized(text: string, k: nat)
    requires Normalized(text) && 0 < k <= |text| && text[k - 1] == '\n'
    ensures Normalized(text[k..])
  {
    assert text == text[..k] + text[k..];
    NormalizedConcat(text[..k], text[k..]);
  }

  lemma DropCRBack(line: string)
    requires line != "" && line[|line| - 1] == '\r'
    ensures DropCR(line) + "\r" == line
  {
  }

  lemma JoinEnds(dropped: string, line: string, rest: string)
    requires dropped + "\r" == line
    ensures dropped + "\r\n" + rest == line + "\n" + rest
  {
    assert dropped + "\r\n" == line + "\n";
  }

  // ------------------------------------------------------------------ one line after another

  /** What a written line becomes in the password rewrite. */
  function Block(line: string, digest: string): string {
    Write(Replaced(Scan(line + "\r\n"), PASSWORD_FIELD, digest))
  }

  function Blocks(lines: seq<string>, digest: string): string {
    if lines == [] then "" else Block(lines[0], digest) + Blocks(lines[1..], digest)
  }

  lemma {:induction false} RewrittenByBlocks(lines: seq<string>, digest: string)
    ensures Write(Replaced(Scan(Write(lines)), PASSWORD_FIELD, digest)) == Blocks(lines, digest)
  {
    if lines != [] {
      var head, tail := lines[0] + "\r\n", Write(lines[1..]);
      RewrittenByBlocks(lines[1..], digest);
      ScanSplits(head, tail);
      ReplacedConcat(Scan(head), Scan(tail), PASSWORD_FIELD, digest);
      WriteConcat(Replaced(Scan(head), PASSWORD_FIELD, digest), Replaced(Scan(tail), PASSWORD_FIELD, digest));
    }
  }

  lemma {:induction false} MatchesByLine(lines: seq<string>)
    ensures Matches(Scan(Write(lines)), PASSWORD_FIELD)
            <==> exists i | 0 <= i < |lines| :: Matches(Scan(lines[i] + "\r\n"), PASSWORD_FIELD)
  {
    if lines != [] {
      var head, tail := lines[0] + "\r\n", Write(lines[1..]);
      MatchesByLine(lines[1..]);
      ScanSplits(head, tail);
      MatchesConcat(Scan(head), Scan(tail), PASSWORD_FIELD);
      assert forall i | 1 <= i < |lines| :: lines[i] == lines[1..][i - 1];
      if exists i | 0 <= i < |lines[1..]| :: Matches(Scan(lines[1..][i] + "\r\n"), PASSWORD_FIELD) {
        var i :| 0 <= i < |lines[1..]| && Matches(Scan(lines[1..][i] + "\r\n"), PASSWORD_FIELD);
        assert lines[i + 1] == lines[1..][i];
      }
    }
  }

  lemma MatchesConcat(a: seq<string>, b: seq<string>, field: string)
    ensures Matches(a + b, field) <==> Matches(a, field) || Matches(b, field)
  {
    if Matches(a, field) {
      var i :| 0 <= i < |a| && HasPrefix(a[i], field);
      assert (a + b)[i] == a[i];
    }
    if Matches(b, field) {
      var i :| 0 <= i < |b| && HasPrefix(b[i], field);
      assert (a + b)[|a| + i] == b[i];
    }
  }

  lemma PlainLine(line: string)
    requires NoLF(line)
    ensures Scan(line + "\r\n") == [line]
  {
    ScanUndoesWrite([line]);
    assert Write([line]) == line + "\r\n" + "";
    assert line + "\r\n" + "" == line + "\r\n";
  }

  /** A block is the line itself exactly if the user name survives. */
  lemma BlockIsLineIff(user: string, digest: string)
    requires NoLF(digest)
    ensures Block(FieldLine(USER_FIELD, user), digest) == FieldLine(USER_FIELD, user) + "\r\n" <==> Survives(user, digest)
  {
    var line := FieldLine(USER_FIELD, user);
    var text := line + "\r\n";
    var lines := Scan(text);
    var replaced := Replaced(lines, PASSWORD_FIELD, digest);
    FieldLineIsNormalized(user);
    WriteUndoesScanIff(text);
    ScannedLinesHaveNoLF(text);
    FieldsAreUnrelated();
    FieldLineNoLF(PASSWORD_FIELD, digest);
    assert AllNoLF(replaced);
    ScanUndoesWrite(replaced);
    if Write(replaced) == text {
      assert replaced == lines;
      UndisturbedIff(lines, digest);
    } else {
      UndisturbedIff(lines, digest);
    }
  }

  lemma UndisturbedIff(lines: seq<string>, digest: string)
    ensures Replaced(lines, PASSWORD_FIELD, digest) == lines <==> Undisturbed(lines, digest)
  {
    var replaced := Replaced(lines, PASSWORD_FIELD, digest);
    if replaced == lines {
      forall i | 0 <= i < |lines| && HasPrefix(lines[i], PASSWORD_FIELD)
        ensures lines[i] == FieldLine(PASSWORD_FIELD, digest)
      {
        assert replaced[i] == lines[i];
      }
    }
  }

  lemma FieldLineIsNormalized(user: string)
    ensures Normalized(FieldLine(USER_FIELD, user) + "\r\n") <==> Normalized(user)
  {
    var field := USER_FIELD + " = ";
    assert field[|field| - 1] == ' ';
    FieldsAreUnrelated();
    assert NoLF(field);
    NormalizedConcat(field, user);
    NormalizedConcat(field + user, "\r\n");
  }

  // ------------------------------------------------------------------ comparing the two orders

  /** Password first, then user. */
  function Straight(lines: seq<string>, user: string, digest: string): seq<string> {
    Replaced(Replaced(lines, PASSWORD_FIELD, digest), USER_FIELD, user)
  }

  lemma StraightHead(lines: seq<string>, user: string, digest: string)
    requires lines != []
    ensures Straight(lines, user, digest)[1..] == Straight(lines[1..], user, digest)
    ensures Replaced(lines, USER_FIELD, user)[1..] == Replaced(lines[1..], USER_FIELD, user)
  {
  }

  /** A line that is not the user's comes out the same either way. */
  lemma HeadsAgree(line: string, user: string, digest: string)
    requires NoLF(line) && !HasPrefix(line, USER_FIELD)
    ensures Block(line, digest) == Straight([line], user, digest)[0] + "\r\n"
  {
    FieldsAreUnrelated();
    PlainLine(line);
    var after := Replaced([line], PASSWORD_FIELD, digest);
    assert after[1..] == [];
    assert Write(after) == after[0] + "\r\n" + "";
    assert HasPrefix(FieldLine(PASSWORD_FIELD, digest), PASSWORD_FIELD);
  }

  lemma HeadIsStraight(lines: seq<string>, user: string, digest: string)
    requires lines != []
    ensures Straight(lines, user, digest)[0] == Straight([lines[0]], user, digest)[0]
    ensures HasPrefix(lines[0], USER_FIELD) ==> Straight(lines, user, digest)[0] == FieldLine(USER_FIELD, user)
    ensures Replaced(lines, USER_FIELD, user)[0] == if HasPrefix(lines[0], USER_FIELD) then FieldLine(USER_FIELD, user) else lines[0]
  {
    FieldsAreUnrelated();
  }

  /** Both orders block by block: they agree if the user's block is the user's line, and where
      there is a user line they agree only then. */
  lemma {:induction false} OrdersAgreeIff(lines: seq<string>, user: string, digest: string)
    requires AllNoLF(lines)
    ensures var extra := |Block(FieldLine(USER_FIELD, user), digest)| - |FieldLine(USER_FIELD, user)| - 2;
            && (extra > 0 ==> |Blocks(Replaced(lines, USER_FIELD, user), digest)| >= |Write(Straight(lines, user, digest))|)
            && (extra < 0 ==> |Blocks(Replaced(lines, USER_FIELD, user), digest)| <= |Write(Straight(lines, user, digest))|)
            && (Matches(lines, USER_FIELD) && extra != 0 ==>
                  |Blocks(Replaced(lines, USER_FIELD, user), digest)| != |Write(Straight(lines, user, digest))|)
    ensures Blocks(Replaced(lines, USER_FIELD, user), digest) == Write(Straight(lines, user, digest)) <==>
            !Matches(lines, USER_FIELD) || Block(FieldLine(USER_FIELD, user), digest) == FieldLine(USER_FIELD, user) + "\r\n"
  {
    if lines != [] {
      var rest := lines[1..];
      OrdersAgreeIff(rest, user, digest);
      StraightHead(lines, user, digest);
      HeadIsStraight(lines, user, digest);
      MatchesFirst(lines, USER_FIELD);
      if !HasPrefix(lines[0], USER_FIELD) {
        HeadsAgree(lines[0], user, digest);
      }
      var x, y := Block(Replaced(lines, USER_FIELD, user)[0], digest), Straight(lines, user, digest)[0] + "\r\n";
      if |x| == |y| {
        SplitEqual(x, Blocks(Replaced(rest, USER_FIELD, user), digest), y, Write(Straight(rest, user, digest)));
      }
    }
  }

  lemma SplitEqual(a: string, b: string, c: string, d: string)
    requires |a| == |c|
    ensures a + b == c + d <==> a == c && b == d
  {
    if a + b == c + d {
      assert a == (a + b)[..|a|] && c == (c + d)[..|c|];
      assert b == (a + b)[|a|..] && d == (c + d)[|c|..];
    }
  }

  lemma MatchesFirst(lines: seq<string>, field: string)
    requires lines != []
    ensures Matches(lines, field) <==> HasPrefix(lines[0], field) || Matches(lines[1..], field)
  {
    assert lines == [lines[0]] + lines[1..];
    MatchesConcat([lines[0]], lines[1..], field);
    assert HasPrefix(lines[0], field) ==> HasPrefix([lines[0]][0], field);
  }

  // ------------------------------------------------------------------ the main theorem

  function UserFirst(config: string, user: string, digest: string): string {
    Updated(Updated(config, USER_FIELD, user), PASSWORD_FIELD, digest)
  }

  function PasswordFirst(config: string, user: string, digest: string): string {
    Updated(Updated(config, PASSWORD_FIELD, digest), USER_FIELD, user)
  }

  lemma PasswordFirstIsStraight(config: string, user: string, digest: string)
    requires NoLF(digest) && Matches(Scan(config), USER_FIELD)
    ensures PasswordFirst(config, user, digest) == Write(Straight(Scan(config), user, digest))
  {
    var lines := Scan(config);
    FieldsAreUnrelated();
    UpdateChangesOnlyField(config, PASSWORD_FIELD, digest);
    ReplacedCommute(lines, user, digest);
    ReplacedWithoutMatch(lines, PASSWORD_FIELD, digest);
  }

  /** A password line is found after the user rewrite if one was there or came with the name. */
  lemma PasswordFoundIff(lines: seq<string>, user: string)
    requires AllNoLF(lines) && Matches(lines, USER_FIELD)
    ensures Matches(Scan(Write(Replaced(lines, USER_FIELD, user))), PASSWORD_FIELD)
            <==> Matches(lines, PASSWORD_FIELD) || Matches(UserLines(user), PASSWORD_FIELD)
  {
    var written := Replaced(lines, USER_FIELD, user);
    FieldsAreUnrelated();
    MatchesByLine(written);
    forall i | 0 <= i < |lines|
      ensures Matches(Scan(written[i] + "\r\n"), PASSWORD_FIELD) <==>
              if HasPrefix(lines[i], USER_FIELD) then Matches(UserLines(user), PASSWORD_FIELD) else HasPrefix(lines[i], PASSWORD_FIELD)
    {
      if !HasPrefix(lines[i], USER_FIELD) {
        PlainLine(lines[i]);
        MatchesFirst([lines[i]], PASSWORD_FIELD);
      }
    }
    if Matches(lines, PASSWORD_FIELD) {
      var i :| 0 <= i < |lines| && HasPrefix(lines[i], PASSWORD_FIELD);
      assert Matches(Scan(written[i] + "\r\n"), PASSWORD_FIELD);
    }
    var u :| 0 <= u < |lines| && HasPrefix(lines[u], USER_FIELD);
    assert Matches(UserLines(user), PASSWORD_FIELD) ==> Matches(Scan(written[u] + "\r\n"), PASSWORD_FIELD);
  }

  lemma WithoutUserLine(config: string, user: string, digest: string)
    requires NoLF(digest) && !Matches(Scan(config), USER_FIELD)
    ensures UserFirst(config, user, digest) == PasswordFirst(config, user, digest)
  {
    FieldsAreUnrelated();
    UpdateChangesOnlyField(config, PASSWORD_FIELD, digest);
    ReplacedCommute(Scan(config), user, digest);
  }

  /** For every configuration, every user name and every digest, the two rewrites commute
      exactly when there is no user line, or no password line, neither in the file nor inside
      the user name, or the user name survives a rewrite. */
  lemma UpdatesCommuteIff(config: string, user: string, digest: string)
    requires NoLF(digest)
    ensures UserFirst(config, user, digest) == PasswordFirst(config, user, digest) <==>
            || !Matches(Scan(config), USER_FIELD)
            || (!Matches(Scan(config), PASSWORD_FIELD) && !Matches(UserLines(user), PASSWORD_FIELD))
            || Survives(user, digest)
  {
    var lines := Scan(config);
    if !Matches(lines, USER_FIELD) {
      WithoutUserLine(config, user, digest);
    } else {
      var written := Replaced(lines, USER_FIELD, user);
      ScannedLinesHaveNoLF(config);
      PasswordFirstIsStraight(config, user, digest);
      PasswordFoundIff(lines, user);
      if Matches(Scan(Write(written)), PASSWORD_FIELD) {
        RewrittenByBlocks(written, digest);
        OrdersAgreeIff(lines, user, digest);
        BlockIsLineIff(user, digest);
      } else {
        ReplacedWithoutMatch(lines, PASSWORD_FIELD, digest);
      }
    }
  }

  /** A user name without line feeds always survives. */
  lemma PlainNameSurvives(user: string, digest: string)
    requires NoLF(user)
    ensures Survives(user, digest)
  {
    FieldsAreUnrelated();
    FieldLineNoLF(USER_FIELD, user);
    PlainLine(FieldLine(USER_FIELD, user));
    assert HasPrefix(FieldLine(USER_FIELD, user), USER_FIELD);
  }

  /** A bare line feed in it does not, and the rewrites differ on every file with both lines. */
  lemma BareLineFeedDiffers(config: string, digest: string)
    requires NoLF(digest) && Matches(Scan(config), USER_FIELD) && Matches(Scan(config), PASSWORD_FIELD)
    ensures UserFirst(config, "\n", digest) != PasswordFirst(config, "\n", digest)
  {
    UpdatesCommuteIff(config, "\n", digest);
    assert !NormalizedAt("\n", 0);
  }
}
