// What of a source text is code: literals and comments blanked out, as the lexer tells
// them apart.

module CodeText {

  // Where a string literal ends whose opening quote has been read: behind the closing
  // quote, or at the end of the line.
  function StringEnd(s: string, i: nat): (end: nat)
    requires i <= |s|
    ensures i <= end <= |s|
    decreases |s| - i
  {
    if i == |s| || s[i] == '\n' then i
    else if s[i] == '"' then i + 1
    else if s[i] != '\\' then StringEnd(s, i + 1)
    else if i + 1 < |s| && s[i + 1] != '\n' then StringEnd(s, i + 2)
    else i
  }

  predicate IsHex(c: char) { '0' <= c <= '9' || 'a' <= c <= 'f' || 'A' <= c <= 'F' || c == '_' }

  function HexEnd(s: string, i: nat): (end: nat)
    requires i <= |s|
    ensures i <= end <= |s|
    decreases |s| - i
  {
    if i < |s| && IsHex(s[i]) then HexEnd(s, i + 1) else i
  }

  predicate CharAt(s: string, i: nat, c: char) { i < |s| && s[i] == c }

  // The length of the character literal that starts the text, zero if none does: one
  // character, an escaped one, or `\u{...}` between apostrophes.
  function CharLength(s: string): (n: nat)
    ensures n <= |s|
  {
    if |s| < 3 || s[0] != '\'' || s[1] == '\'' || s[1] == '\n' then 0
    else if s[1] != '\\' then (if s[2] == '\'' then 3 else 0)
    else if s[2] != '\n' && CharAt(s, 3, '\'') then 4
    else if s[2] != 'u' || !CharAt(s, 3, '{') then 0
    else
      var end := HexEnd(s, 4);
      if end > 4 && CharAt(s, end, '}') && CharAt(s, end + 1, '\'') then end + 2 else 0
  }

  function LineEnd(s: string, i: nat): (end: nat)
    requires i <= |s|
    ensures i <= end <= |s|
    decreases |s| - i
  {
    if i < |s| && s[i] != '\n' then LineEnd(s, i + 1) else i
  }

  predicate StartsComment(s: string) { |s| >= 2 && s[0] == '/' && s[1] == '/' }

  // The length of the literal or comment that starts the text, zero if none does.
  function TextLength(s: string): (n: nat)
    ensures n <= |s|
  {
    if StartsComment(s) then LineEnd(s, 2)
    else if s != "" && s[0] == '"' then StringEnd(s, 1)
    else CharLength(s)
  }

  // What stands for a literal or comment: a comment separates tokens as a blank does, a
  // literal does not.
  const BLANK := ' '
  const LITERAL := '"'

  // The text with every character of a literal or comment replaced.
  function Code(s: string): (code: string)
    ensures |code| == |s|
    ensures forall i :: 0 <= i < |s| ==> code[i] == s[i] || code[i] == BLANK || code[i] == LITERAL
    decreases |s|
  {
    if s == "" then ""
    else
      var n := TextLength(s);
      if n == 0 then [s[0]] + Code(s[1..])
      else seq(n, i => if StartsComment(s) then BLANK else LITERAL) + Code(s[n..])
  }

  // ---- Code is code ----

  predicate PlainBody(body: string) { '"' !in body && '\\' !in body && '\n' !in body }

  lemma {:induction false} StringEndsAt(s: string, i: nat, n: nat)
    requires i <= n < |s| && s[n] == '"' && PlainBody(s[i..n])
    ensures StringEnd(s, i) == n + 1
    decreases n - i
  {
    if i < n {
      assert s[i] == s[i..n][0] && forall k :: i < k < n ==> s[k] == s[i..n][k - i];
      assert s[i + 1..n] == s[i..n][1..];
      StringEndsAt(s, i + 1, n);
    }
  }

  function Blanks(n: nat): string { seq(n, i => LITERAL) }

  lemma CodeOfCode(s: string)
    requires s != "" && TextLength(s) == 0
    ensures Code(s) == [s[0]] + Code(s[1..])
  {
    hide TextLength;
  }

  lemma CodeOfLiteral(s: string, n: nat)
    requires !StartsComment(s) && 0 < n == TextLength(s)
    ensures Code(s) == Blanks(n) + Code(s[n..])
  {
    hide TextLength;
    assert s != "";
  }

  lemma PunctuationIsCode(s: string)
    requires s != "" && (s[0] == '(' || s[0] == ',')
    ensures TextLength(s) == 0
  {}

  lemma LiteralHasLength(body: string)
    requires PlainBody(body)
    ensures TextLength("\"" + body + "\",") == |body| + 2 && !StartsComment("\"" + body + "\",")
  {
    var literal := "\"" + body + "\",";
    assert literal[1..|body| + 1] == body;
    StringEndsAt(literal, 1, |body| + 1);
  }

  lemma LiteralThenComma(body: string)
    requires PlainBody(body)
    ensures Code("\"" + body + "\",") == Blanks(|body| + 2) + ","
  {
    hide Code, TextLength, Blanks, StartsComment, PlainBody;
    var literal := "\"" + body + "\",";
    LiteralHasLength(body);
    CodeOfLiteral(literal, |body| + 2);
    assert literal[|body| + 2..] == ",";
    CommaIsCode();
  }

  lemma CommaIsCode()
    ensures Code(",") == ","
  {
    assert ","[1..] == "";
  }

  // A string literal in an argument list is blanked out, and nothing around it.
  lemma LiteralIsBlanked(body: string)
    requires PlainBody(body)
    ensures Code("(\"" + body + "\",") == "(" + Blanks(|body| + 2) + ","
  {
    hide Code, TextLength, Blanks, StartsComment, PlainBody;
    var literal, call := "\"" + body + "\",", "(\"" + body + "\",";
    assert call[0] == '(' && call[1..] == literal;
    PunctuationIsCode(call);
    CodeOfCode(call);
    LiteralThenComma(body);
    assert "(" + (Blanks(|body| + 2) + ",") == "(" + Blanks(|body| + 2) + ",";
  }

  // A text without quotes, apostrophes and slashes is all code.
  lemma {:induction false} AllIsCode(s: string)
    requires '"' !in s && '\'' !in s && '/' !in s
    ensures Code(s) == s
  {
    if s != "" {
      assert forall i :: 0 <= i < |s[1..]| ==> s[1..][i] in s;
      assert s[0] in s;
      AllIsCode(s[1..]);
      assert s == [s[0]] + s[1..];
    }
  }

  // ---- Where literals and comments end ----

  // What a string literal is written with: characters, and escapes.
  predicate IsUnit(u: string) {
    || (|u| == 1 && u[0] != '"' && u[0] != '\\' && u[0] != '\n')
    || (|u| == 2 && u[0] == '\\' && u[1] != '\n')
  }

  function Concat(units: seq<string>): string {
    if units == [] then "" else units[0] + Concat(units[1..])
  }

  // A string literal ends behind the first quote that no backslash escapes, and whatever
  // stands in it is text.
  lemma {:induction false} StringEndsBehind(front: string, units: seq<string>, rest: string)
    requires forall i :: 0 <= i < |units| ==> IsUnit(units[i])
    ensures StringEnd(front + Concat(units) + "\"" + rest, |front|) == |front| + |Concat(units)| + 1
    decreases |units|
  {
    var s := front + Concat(units) + "\"" + rest;
    if units != [] {
      var u := units[0];
      assert IsUnit(u);
      assert s == (front + u) + Concat(units[1..]) + "\"" + rest;
      assert s[|front|] == u[0] && (|u| == 2 ==> s[|front| + 1] == u[1]);
      StringEndsBehind(front + u, units[1..], rest);
    }
  }

  // An unterminated one ends with its line.
  lemma {:induction false} StringEndsWithLine(front: string, units: seq<string>, rest: string)
    requires (forall i :: 0 <= i < |units| ==> IsUnit(units[i])) && (rest == "" || rest[0] == '\n')
    ensures StringEnd(front + Concat(units) + rest, |front|) == |front| + |Concat(units)|
    decreases |units|
  {
    var s := front + Concat(units) + rest;
    if units != [] {
      var u := units[0];
      assert IsUnit(u);
      assert s == (front + u) + Concat(units[1..]) + rest;
      assert s[|front|] == u[0] && (|u| == 2 ==> s[|front| + 1] == u[1]);
      StringEndsWithLine(front + u, units[1..], rest);
    }
  }

  lemma {:induction false} LineEndsAt(s: string, i: nat, n: nat)
    requires i <= n <= |s| && (n == |s| || s[n] == '\n') && forall k :: i <= k < n ==> s[k] != '\n'
    ensures LineEnd(s, i) == n
    decreases n - i
  {
    if i < n { LineEndsAt(s, i + 1, n); }
  }

  function Spaces(n: nat): string { seq(n, i => BLANK) }

  // A comment is blanked out to the end of its line, which it leaves.
  lemma CommentIsBlanked(body: string, rest: string)
    requires '\n' !in body && (rest == "" || rest[0] == '\n')
    ensures Code("//" + body + rest) == Spaces(|body| + 2) + Code(rest)
  {
    hide Code, Spaces, LineEnd, StartsComment;
    var s, n := "//" + body + rest, |body| + 2;
    CommentText(body, rest);
    LineEndsAt(s, 2, n);
    CodeOfComment(s, n);
  }

  lemma CommentText(body: string, rest: string)
    requires '\n' !in body && (rest == "" || rest[0] == '\n')
    ensures var s, n := "//" + body + rest, |body| + 2;
      && StartsComment(s) && n <= |s| && (n == |s| || s[n] == '\n') && s[n..] == rest
      && forall k :: 2 <= k < n ==> s[k] != '\n'
  {
    var s, n := "//" + body + rest, |body| + 2;
    forall k | 2 <= k < n ensures s[k] != '\n' {
      assert s[k] == body[k - 2];
    }
  }

  lemma CodeOfComment(s: string, n: nat)
    requires StartsComment(s) && n == LineEnd(s, 2)
    ensures Code(s) == Spaces(n) + Code(s[n..])
  {}

  // A character between apostrophes is blanked out, escaped or not...
  lemma CharIsBlanked(c: char, rest: string)
    ensures c != '\'' && c != '\\' && c != '\n' ==> Code("'" + [c] + "'" + rest) == Blanks(3) + Code(rest)
    ensures c != '\n' ==> Code("'\\" + [c] + "'" + rest) == Blanks(4) + Code(rest)
  {
    var s, t := "'" + [c] + "'" + rest, "'\\" + [c] + "'" + rest;
    assert s[0] == '\'' && s[1] == c && s[2] == '\'' && s[3..] == rest;
    assert t[0] == '\'' && t[1] == '\\' && t[2] == c && t[3] == '\'' && t[4..] == rest;
  }

  lemma {:induction false} HexEndsAt(s: string, i: nat, n: nat)
    requires i <= n < |s| && !IsHex(s[n]) && forall k :: i <= k < n ==> IsHex(s[k])
    ensures HexEnd(s, i) == n
    decreases n - i
  {
    if i < n { HexEndsAt(s, i + 1, n); }
  }

  // ...or by its number...
  lemma NumberedCharIsBlanked(hex: string, rest: string)
    requires hex != "" && forall k :: 0 <= k < |hex| ==> IsHex(hex[k])
    ensures Code("'\\u{" + hex + "}'" + rest) == Blanks(|hex| + 6) + Code(rest)
  {
    hide Code;
    var s, end := "'\\u{" + hex + "}'" + rest, 4 + |hex|;
    assert s[0] == '\'' && s[1] == '\\' && s[2] == 'u' && s[3] == '{' && s[end] == '}' && s[end + 1] == '\'';
    assert forall k :: 4 <= k < end ==> s[k] == hex[k - 4];
    HexEndsAt(s, 4, end);
    assert s[end + 2..] == rest;
    NumberedLength(s, end);
    CodeOfLiteral(s, end + 2);
  }

  lemma NumberedLength(s: string, end: nat)
    requires |s| > end + 1 && end > 4 && s[0] == '\'' && s[1] == '\\' && s[2] == 'u' && s[3] == '{'
    requires HexEnd(s, 4) == end && s[end] == '}' && s[end + 1] == '\'' && IsHex(s[4])
    ensures TextLength(s) == end + 2 && !StartsComment(s)
  {}

  // A whole character literal: one character, an escaped one, or a number.
  predicate IsCharLiteral(t: string) {
    && |t| >= 3 && t[0] == '\'' && t[|t| - 1] == '\''
    && (
      || (|t| == 3 && t[1] != '\'' && t[1] != '\\' && t[1] != '\n')
      || (|t| == 4 && t[1] == '\\' && t[2] != '\n')
      || (
        && |t| >= 7 && t[1] == '\\' && t[2] == 'u' && t[3] == '{' && t[|t| - 2] == '}'
        && forall k :: 4 <= k < |t| - 2 ==> t[k] in HEX_DIGITS))
  }

  const HEX_DIGITS: set<char> := {
    '0', '1', '2', '3', '4', '5', '6', '7', '8', '9', 'a', 'b', 'c', 'd', 'e', 'f', 'A', 'B', 'C', 'D', 'E', 'F', '_'
  }

  lemma HexDigits(c: char)
    ensures IsHex(c) <==> c in HEX_DIGITS
  {}

  lemma {:induction false} HexEndStops(s: string, i: nat)
    requires i <= |s|
    ensures forall k :: i <= k < HexEnd(s, i) ==> IsHex(s[k])
    decreases |s| - i
  {
    if i < |s| && IsHex(s[i]) { HexEndStops(s, i + 1); }
  }

  // A text starts with a character literal of some length exactly when that much of it is
  // one.
  lemma CharLiteralsExactly(s: string, n: nat)
    requires 0 < n <= |s|
    ensures CharLength(s) == n <==> IsCharLiteral(s[..n])
  {
    var t := s[..n];
    if n >= 7 && IsCharLiteral(t) {
      forall k | 4 <= k < n - 2 ensures IsHex(s[k]) {
        assert s[k] == t[k];
        HexDigits(t[k]);
      }
      HexEndsAt(s, 4, n - 2);
    }
    if CharLength(s) == n && n > 4 {
      HexEndStops(s, 4);
      forall k | 4 <= k < n - 2 ensures t[k] in HEX_DIGITS { HexDigits(s[k]); }
    }
  }

  // ...and an apostrophe that opens no such literal, as a label's does, is code: none holds
  // a newline or nothing.
  lemma LabelIsCode(c: char, rest: string)
    requires c == '\n' || c == '\'' || (c != '\\' && (rest == "" || rest[0] != '\''))
    ensures Code("'" + [c] + rest) == "'" + Code([c] + rest)
  {
    hide Code;
    var s := "'" + [c] + rest;
    NoCharHere(s);
    CodeOfCode(s);
    assert s[1..] == [c] + rest;
  }

  lemma NoCharHere(s: string)
    requires |s| >= 2 && s[0] == '\''
    requires s[1] == '\n' || s[1] == '\'' || (s[1] != '\\' && (|s| == 2 || s[2] != '\''))
    ensures TextLength(s) == 0
  {}
}
