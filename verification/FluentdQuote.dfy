/** The FluentD single-quoted string literal (internal/utils/output_credentials.go). */
module FluentdQuote {
  import opened Wrappers
  import Credentials

  /** strings.ReplaceAll for a one-character pattern. */
  function ReplaceAll(s: string, c: char, replacement: string): string {
    if s == "" then "" else ReplaceOne(s[0], c, replacement) + ReplaceAll(s[1..], c, replacement)
  }

  function ReplaceOne(x: char, c: char, replacement: string): string {
    if x == c then replacement else [x]
  }

  function FluentdQuote(value: string): string {
    var escaped := ReplaceAll(value, '\\', "\\\\");
    "'" + ReplaceAll(escaped, '\'', "\\'") + "'"
  }

  /** Both replacements at once, character by character. */
  function Escape(value: string): string {
    if value == "" then "" else EscapeOne(value[0]) + Escape(value[1..])
  }

  function EscapeOne(c: char): string {
    if c == '\\' then "\\\\" else if c == '\'' then "\\'" else [c]
  }

  /** A reader of single-quoted literals, positioned after the opening quote, that knows
      only the escapes \' and \\ and takes every other backslash as it is. It returns the
      value and what follows the closing quote. */
  function ReadLiteral(s: string): Option<(string, string)> {
    if s == "" then None
    else if s[0] == '\'' then Some(("", s[1..]))
    else if s[0] == '\\' && |s| >= 2 && (s[1] == '\'' || s[1] == '\\') then Prepend(s[1], ReadLiteral(s[2..]))
    else Prepend(s[0], ReadLiteral(s[1..]))
  }

  function Prepend(c: char, r: Option<(string, string)>): Option<(string, string)> {
    match r
    case None => None
    case Some((value, rest)) => Some(([c] + value, rest))
  }

  lemma {:induction false} ReplaceAllConcat(a: string, b: string, c: char, replacement: string)
    ensures ReplaceAll(a + b, c, replacement) == ReplaceAll(a, c, replacement) + ReplaceAll(b, c, replacement)
  {
    if a == "" {
      assert a + b == b;
    } else {
      ReplaceAllConcat(a[1..], b, c, replacement);
      assert (a + b)[1..] == a[1..] + b;
      Associative(ReplaceOne(a[0], c, replacement), ReplaceAll(a[1..], c, replacement), ReplaceAll(b, c, replacement));
    }
  }

  lemma {:induction false} TwoReplacements(value: string)
    ensures ReplaceAll(ReplaceAll(value, '\\', "\\\\"), '\'', "\\'") == Escape(value)
  {
    if value != "" {
      TwoReplacements(value[1..]);
      var first := if value[0] == '\\' then "\\\\" else [value[0]];
      ReplaceAllConcat(first, ReplaceAll(value[1..], '\\', "\\\\"), '\'', "\\'");
      assert first[1..] == (if value[0] == '\\' then "\\" else "");
      assert ReplaceAll("", '\'', "\\'") == "";
      assert "\\"[1..] == "";
      assert ReplaceAll("\\", '\'', "\\'") == "\\";
    }
  }

  /** The two whole-string replacements amount to one escape per character; in the other
      order they would not. */
  lemma QuoteIsEscape(value: string)
    ensures FluentdQuote(value) == "'" + Escape(value) + "'"
  {
    TwoReplacements(value);
  }

  lemma {:induction false} ReadEscaped(value: string, rest: string)
    ensures ReadLiteral(Escape(value) + "'" + rest) == Some((value, rest))
  {
    if value == "" {
      assert Escape(value) + "'" + rest == "'" + rest;
    } else {
      var tail := Escape(value[1..]) + "'" + rest;
      ReadEscaped(value[1..], rest);
      assert Escape(value) + "'" + rest == EscapeOne(value[0]) + tail;
      ReadOne(value[0], tail);
      assert value == [value[0]] + value[1..];
    }
  }

  lemma ReadOne(c: char, tail: string)
    ensures ReadLiteral(EscapeOne(c) + tail) == Prepend(c, ReadLiteral(tail))
  {
    var s := EscapeOne(c) + tail;
    assert s[|EscapeOne(c)|..] == tail;
  }

  /** Round trip: whatever follows the literal in the configuration, the reader recovers the
      value exactly and stops at the quote FluentdQuote wrote last. */
  lemma QuoteRoundTrip(value: string, rest: string)
    ensures FluentdQuote(value) != "" && FluentdQuote(value)[0] == '\''
    ensures ReadLiteral((FluentdQuote(value) + rest)[1..]) == Some((value, rest))
  {
    QuoteIsEscape(value);
    ReadEscaped(value, rest);
    assert (FluentdQuote(value) + rest)[1..] == Escape(value) + "'" + rest;
  }

  lemma {:induction false} EscapeSingleLine(value: string)
    ensures Credentials.IsSingleLine(Escape(value)) <==> Credentials.IsSingleLine(value)
  {
    if value != "" {
      EscapeSingleLine(value[1..]);
      SingleLineConcat(EscapeOne(value[0]), Escape(value[1..]));
      SingleLineConcat([value[0]], value[1..]);
      assert value == [value[0]] + value[1..];
    }
  }

  lemma SingleLineConcat(a: string, b: string)
    ensures Credentials.IsSingleLine(a + b) <==> Credentials.IsSingleLine(a) && Credentials.IsSingleLine(b)
  {
    if Credentials.IsSingleLine(a + b) {
      assert forall i | 0 <= i < |a| :: (a + b)[i] == a[i];
      assert forall i | 0 <= i < |b| :: (a + b)[|a| + i] == b[i];
    }
  }

  /** The literal stays on one line exactly when the value passes the FluentD validator. */
  lemma QuoteSingleLineIff(value: string)
    ensures Credentials.IsSingleLine(FluentdQuote(value)) <==> Credentials.Accepts(Credentials.SingleLine, value)
  {
    QuoteIsEscape(value);
    EscapeSingleLine(value);
    SingleLineConcat("'", Escape(value));
    SingleLineConcat("'" + Escape(value), "'");
  }
}
