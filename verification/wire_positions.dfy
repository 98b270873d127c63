// Wire positions: one-based line and column, counted in Unicode scalar values,
// against UTF-8 byte offsets, with clamping on every axis.

module WirePositions {
  import opened QueryModel
  import opened Utf8

  const MAX_OFFSET: nat := 0xFFFF_FFFF

  // ---- UTF-8 text ----

  function Bytes(s: string): nat {
    if s == "" then 0 else Bytes(s[..|s| - 1]) + Width(s[|s| - 1])
  }

  lemma {:induction false} BytesAreEncoded(s: string)
    ensures Bytes(s) == |Encode(s)|
  {
    if s != "" {
      var init, last := s[..|s| - 1], [s[|s| - 1]];
      BytesAreEncoded(init);
      EncodingAppends(init, last);
      assert s == init + last && last[1..] == "";
    }
  }

  // The byte offset of the `i`th scalar.
  function OffsetOf(text: string, i: nat): nat
    requires i <= |text|
  {
    Bytes(text[..i])
  }

  ghost predicate Boundary(text: string, offset: nat) {
    exists i :: 0 <= i <= |text| && OffsetOf(text, i) == offset
  }

  lemma {:induction false} OffsetsIncrease(text: string, i: nat, j: nat)
    requires i < j <= |text|
    ensures OffsetOf(text, i) + (j - i) <= OffsetOf(text, j)
    decreases j
  {
    assert text[..j][..j - 1] == text[..j - 1];
    if i < j - 1 { OffsetsIncrease(text, i, j - 1); }
  }

  lemma OffsetsDistinct(text: string, i: nat, j: nat)
    requires i <= |text| && j <= |text| && OffsetOf(text, i) == OffsetOf(text, j)
    ensures i == j
  {
    if i < j { OffsetsIncrease(text, i, j); } else if j < i { OffsetsIncrease(text, j, i); }
  }

  lemma OffsetInText(text: string, i: nat)
    requires i <= |text|
    ensures i <= OffsetOf(text, i) <= Bytes(text)
  {
    assert text[..|text|] == text && text[..0] == "";
    if 0 < i { OffsetsIncrease(text, 0, i); }
    if i < |text| { OffsetsIncrease(text, i, |text|); }
  }

  // ---- Lines ----

  function Newlines(s: string): nat {
    if s == "" then 0 else Newlines(s[..|s| - 1]) + (if s[|s| - 1] == '\n' then 1 else 0)
  }

  // The scalar the line of the `i`th one starts at.
  function LineStart(text: string, i: nat): (b: nat)
    requires i <= |text|
    ensures b <= i
    ensures forall k :: b <= k < i ==> text[k] != '\n'
  {
    if i == 0 || text[i - 1] == '\n' then i else LineStart(text, i - 1)
  }

  // The first newline at or after `i`, or the end of the text.
  function LineEnd(text: string, i: nat): (e: nat)
    requires i <= |text|
    ensures i <= e <= |text|
    ensures forall k :: i <= k < e ==> text[k] != '\n'
    ensures e < |text| ==> text[e] == '\n'
    decreases |text| - i
  {
    if i == |text| || text[i] == '\n' then i else LineEnd(text, i + 1)
  }

  // The first scalar of the one-based `line`, if the text has that many lines.
  function LineBegin(text: string, line: nat): (b: Option<nat>)
    requires line >= 1
    ensures b.Some? ==> b.value <= |text|
  {
    if line == 1 then Some(0)
    else
      match LineBegin(text, line - 1)
      case None => None
      case Some(b) => if LineEnd(text, b) < |text| then Some(LineEnd(text, b) + 1) else None
  }

  lemma LineEndIsFirst(text: string, b: nat, e: nat)
    requires b <= e < |text| && text[e] == '\n' && forall k :: b <= k < e ==> text[k] != '\n'
    ensures LineEnd(text, b) == e
  {}

  // Counting newlines and walking lines agree.
  lemma {:induction false} LineOfIndex(text: string, i: nat)
    requires i <= |text|
    ensures LineBegin(text, Newlines(text[..i]) + 1) == Some(LineStart(text, i))
  {
    if i > 0 {
      LineOfIndex(text, i - 1);
      assert text[..i][..i - 1] == text[..i - 1];
      if text[i - 1] == '\n' { LineEndIsFirst(text, LineStart(text, i - 1), i - 1); }
    }
  }

  lemma {:induction false} BeginIsStart(text: string, line: nat)
    requires line >= 1 && LineBegin(text, line).Some?
    ensures Newlines(text[..LineBegin(text, line).value]) == line - 1
    ensures LineStart(text, LineBegin(text, line).value) == LineBegin(text, line).value
  {
    if line > 1 {
      BeginIsStart(text, line - 1);
      var b := LineBegin(text, line - 1).value;
      var e := LineEnd(text, b);
      NoNewlinesBetween(text, b, e);
      assert text[..e + 1][..e] == text[..e];
    }
  }

  lemma {:induction false} NoNewlinesBetween(text: string, b: nat, e: nat)
    requires b <= e <= |text| && forall k :: b <= k < e ==> text[k] != '\n'
    ensures Newlines(text[..e]) == Newlines(text[..b])
    decreases e
  {
    if b < e {
      assert text[..e][..e - 1] == text[..e - 1];
      NoNewlinesBetween(text, b, e - 1);
    }
  }

  lemma {:induction false} BeginsIncrease(text: string, l1: nat, l2: nat)
    requires 1 <= l1 < l2 && LineBegin(text, l2).Some?
    ensures LineBegin(text, l1).Some?
    ensures LineEnd(text, LineBegin(text, l1).value) < LineBegin(text, l2).value
  {
    if l1 < l2 - 1 { BeginsIncrease(text, l1, l2 - 1); }
  }

  // ---- The two conversions ----

  datatype Position = Position(offset: Option<nat>, line: Option<nat>, column: Option<nat>)

  datatype LineCol = LineCol(line: nat, column: nat)

  datatype Located = At(at: LineCol) | OutOfBounds | NotCharBoundary

  // Zero-based line and column of a valid offset.
  ghost function LocateOffset(text: string, offset: nat): Located {
    if offset > Bytes(text) then OutOfBounds
    else if !Boundary(text, offset) then NotCharBoundary
    else
      var i :| 0 <= i <= |text| && OffsetOf(text, i) == offset;
      At(LineCol(Newlines(text[..i]), i - LineStart(text, i)))
  }

  // The fully-populated position the server returns.
  ghost function OfOffset(text: string, offset: nat): Position {
    var located := LocateOffset(text, offset);
    Position(Some(offset),
             if located.At? then Some(located.at.line + 1) else None,
             if located.At? then Some(located.at.column + 1) else None)
  }

  function AtLeastOne(n: Option<nat>): nat {
    if n.GetOr(1) == 0 then 1 else n.GetOr(1)
  }

  function Min(a: nat, b: nat): nat { if a <= b then a else b }

  // The scalar a line and column name, clamped to the line and to the text.
  function IndexAt(text: string, line: nat, column: nat): (i: nat)
    requires line >= 1 && column >= 1
    ensures i <= |text|
  {
    match LineBegin(text, line)
    case None => |text|
    case Some(b) => Min(b + (column - 1), LineEnd(text, b))
  }

  function ToOffset(p: Position, text: string): nat {
    if p.offset.Some? then Min(p.offset.value, Bytes(text))
    else OffsetOf(text, IndexAt(text, AtLeastOne(p.line), AtLeastOne(p.column)))
  }

  // Bytes are counted along with scalars, as the walk does.
  method ComputeOffset(p: Position, text: string) returns (offset: nat)
    ensures offset == ToOffset(p, text)
  {
    hide Bytes, OffsetOf, LineBegin, LineEnd;
    var len := Bytes(text);
    if p.offset.Some? { return Min(p.offset.value, len); }
    var line, column := AtLeastOne(p.line), AtLeastOne(p.column);
    var start, at, found := FindLine(text, line);
    OffsetAtEnds(text);
    if !found { return len; }
    offset := StepColumns(text, start, at, column);
  }

  lemma OffsetAtEnds(text: string)
    ensures OffsetOf(text, 0) == 0 && OffsetOf(text, |text|) == Bytes(text)
  {
    assert text[..|text|] == text;
  }

  lemma OffsetAfter(text: string, i: nat)
    requires i < |text|
    ensures OffsetOf(text, i + 1) == OffsetOf(text, i) + Width(text[i])
  {
    assert text[..i + 1][..i] == text[..i];
  }

  // Walk to the start of the requested line.
  method FindLine(text: string, line: nat) returns (start: nat, at: nat, found: bool)
    requires line >= 1
    ensures found <==> LineBegin(text, line).Some?
    ensures found ==> LineBegin(text, line) == Some(at) && at <= |text| && start == OffsetOf(text, at)
  {
    hide Bytes, OffsetOf, LineEnd;
    OffsetAtEnds(text);
    start, at := 0, 0;
    var current := 1;
    while current < line
      invariant 1 <= current <= line && at <= |text|
      invariant LineBegin(text, current) == Some(at) && start == OffsetOf(text, at)
    {
      var nextStart, nextAt, more := NextLine(text, start, at);
      if !more {
        NoSuchLine(text, current, line);
        return start, at, false;
      }
      start, at, current := nextStart, nextAt, current + 1;
    }
    found := true;
  }

  // Advance `column - 1` scalars, stopping at the newline or the end of the text.
  method StepColumns(text: string, start: nat, at: nat, column: nat) returns (offset: nat)
    requires at <= |text| && column >= 1 && start == OffsetOf(text, at)
    ensures offset == OffsetOf(text, Min(at + (column - 1), LineEnd(text, at)))
  {
    hide Bytes, OffsetOf;
    offset := start;
    var stepped := 0;
    while at + stepped < |text|
      invariant stepped <= column - 1 && at + stepped <= LineEnd(text, at)
      invariant offset == OffsetOf(text, at + stepped)
    {
      if text[at + stepped] == '\n' || stepped >= column - 1 { return; }
      OffsetAfter(text, at + stepped);
      offset := offset + Width(text[at + stepped]);
      stepped := stepped + 1;
    }
  }

  // Step over the rest of a line and its newline.
  method NextLine(text: string, start: nat, at: nat) returns (nextStart: nat, nextAt: nat, found: bool)
    requires at <= |text| && start == OffsetOf(text, at)
    ensures found <==> LineEnd(text, at) < |text|
    ensures found ==> nextAt == LineEnd(text, at) + 1 && nextStart == OffsetOf(text, nextAt)
  {
    hide Bytes, OffsetOf;
    nextStart, nextAt := start, at;
    while nextAt < |text|
      invariant at <= nextAt <= LineEnd(text, at) && nextStart == OffsetOf(text, nextAt)
    {
      var c := text[nextAt];
      OffsetAfter(text, nextAt);
      nextStart, nextAt := nextStart + Width(c), nextAt + 1;
      if c == '\n' { return nextStart, nextAt, true; }
    }
    found := false;
  }

  lemma {:induction false} NoSuchLine(text: string, have: nat, want: nat)
    requires 1 <= have < want && LineBegin(text, have).Some?
    requires LineEnd(text, LineBegin(text, have).value) == |text|
    ensures LineBegin(text, want) == None
  {
    if have < want - 1 { NoSuchLine(text, have, want - 1); }
  }

  // ---- Round trips ----

  lemma LocatesIndex(text: string, i: nat)
    requires i <= |text|
    ensures LocateOffset(text, OffsetOf(text, i)) == At(LineCol(Newlines(text[..i]), i - LineStart(text, i)))
  {
    OffsetInText(text, i);
    assert Boundary(text, OffsetOf(text, i));
    forall j | 0 <= j <= |text| && OffsetOf(text, j) == OffsetOf(text, i) ensures j == i {
      OffsetsDistinct(text, i, j);
    }
  }

  // The line and column returned for a character boundary lead back to it.
  lemma LineAndColumnRoundTrip(text: string, i: nat)
    requires i <= |text|
    ensures var p := OfOffset(text, OffsetOf(text, i));
      && p.line.Some? && p.column.Some?
      && ToOffset(p.(offset := None), text) == OffsetOf(text, i)
  {
    hide Bytes, OffsetOf, LineBegin, Newlines, LocateOffset, LineStart, LineEnd;
    LocatesIndex(text, i);
    LineOfIndex(text, i);
    var b, e := LineStart(text, i), LineEnd(text, LineStart(text, i));
    assert i <= e;
    assert IndexAt(text, Newlines(text[..i]) + 1, i - b + 1) == i;
  }

  // A missing line or column is the first one, as is one numbered zero; a position that
  // says nothing is the start of the text.
  lemma MissingIsFirst(text: string, line: Option<nat>, column: Option<nat>)
    ensures ToOffset(Position(None, None, column), text) == ToOffset(Position(None, Some(1), column), text)
    ensures ToOffset(Position(None, Some(0), column), text) == ToOffset(Position(None, Some(1), column), text)
    ensures ToOffset(Position(None, line, None), text) == ToOffset(Position(None, line, Some(1)), text)
    ensures ToOffset(Position(None, line, Some(0)), text) == ToOffset(Position(None, line, Some(1)), text)
    ensures ToOffset(Position(None, None, None), text) == 0
  {
    assert text[..0] == "";
  }

  // Converting what was converted changes nothing more.
  lemma ClampingIsIdempotent(p: Position, text: string)
    requires p.offset == None
    ensures var o := ToOffset(p, text);
      OfOffset(text, o).line.Some? && ToOffset(OfOffset(text, o).(offset := None), text) == o
  {
    LineAndColumnRoundTrip(text, IndexAt(text, AtLeastOne(p.line), AtLeastOne(p.column)));
  }

  // ---- Clamping ----

  // A line and column always resolve to a character boundary of the text, on the
  // requested line if there is one and at the end of the text otherwise.
  lemma ResolvesOnTheLine(text: string, line: nat, column: nat)
    requires line >= 1 && column >= 1
    ensures var i := IndexAt(text, line, column);
      && Boundary(text, OffsetOf(text, i)) && OffsetOf(text, i) <= Bytes(text)
      && (if LineBegin(text, line).Some? then Newlines(text[..i]) == line - 1 else i == |text|)
  {
    var i := IndexAt(text, line, column);
    OffsetInText(text, i);
    if LineBegin(text, line).Some? {
      BeginIsStart(text, line);
      NoNewlinesBetween(text, LineBegin(text, line).value, i);
    }
  }

  // Columns move right within the line: the `column`th scalar, or the line's end.
  lemma ResolvesTheColumn(text: string, line: nat, column: nat)
    requires line >= 1 && column >= 1 && LineBegin(text, line).Some?
    ensures var i := IndexAt(text, line, column);
      i - LineStart(text, i) ==
        Min(column - 1, LineEnd(text, LineBegin(text, line).value) - LineBegin(text, line).value)
  {
    var b, i := LineBegin(text, line).value, IndexAt(text, line, column);
    BeginIsStart(text, line);
    StartStays(text, b, i);
  }

  lemma {:induction false} StartStays(text: string, b: nat, i: nat)
    requires b <= i <= |text| && LineStart(text, b) == b && forall k :: b <= k < i ==> text[k] != '\n'
    ensures LineStart(text, i) == b
  {
    if b < i { StartStays(text, b, i - 1); }
  }

  // Resolution is monotone in the lexicographic order of line and column.
  lemma ResolutionIsMonotone(text: string, l1: nat, c1: nat, l2: nat, c2: nat)
    requires l1 >= 1 && c1 >= 1 && l2 >= 1 && c2 >= 1
    requires l1 < l2 || (l1 == l2 && c1 <= c2)
    ensures OffsetOf(text, IndexAt(text, l1, c1)) <= OffsetOf(text, IndexAt(text, l2, c2))
  {
    var i, j := IndexAt(text, l1, c1), IndexAt(text, l2, c2);
    if l1 < l2 && LineBegin(text, l2).Some? { BeginsIncrease(text, l1, l2); }
    if i < j { OffsetsIncrease(text, i, j); }
  }

  // An offset wins over line and column, and is clamped to the text but not to a
  // character: it resolves to a valid position exactly when it lies past the end
  // or on a boundary.
  lemma OffsetIsTakenAsItIs(p: Position, text: string)
    requires p.offset.Some?
    ensures ToOffset(p, text) <= Bytes(text)
    ensures OfOffset(text, ToOffset(p, text)).line.Some?
      <==> p.offset.value >= Bytes(text) || Boundary(text, p.offset.value)
  {
    assert text[..|text|] == text;
    assert OffsetOf(text, |text|) == Bytes(text);
  }

  // Inside a two-byte scalar there is no line or column to return.
  lemma OffsetInsideAScalar()
    ensures var text := "é"; var o := ToOffset(Position(Some(1), None, None), text);
      o == 1 && OfOffset(text, o) == Position(Some(1), None, None)
  {
    var text := "é";
    assert text[..0] == "" && text[..1] == text;
    assert OffsetOf(text, 0) == 0 && OffsetOf(text, 1) == 2;
    assert !Boundary(text, 1);
  }

  // ---- Width ----

  lemma {:induction false} NewlinesAndColumn(text: string, i: nat)
    requires i <= |text|
    ensures Newlines(text[..i]) + (i - LineStart(text, i)) <= i
  {
    if i > 0 {
      assert text[..i][..i - 1] == text[..i - 1];
      NewlinesAndColumn(text, i - 1);
    }
  }

  // The one-based line and column fit 32 bits whenever the offset is not the very
  // last one a text can have.
  lemma PositionFits(text: string, i: nat)
    requires i <= |text| && OffsetOf(text, i) < MAX_OFFSET
    ensures var p := OfOffset(text, OffsetOf(text, i));
      p.line.Some? && p.column.Some? && p.line.value <= MAX_OFFSET && p.column.value <= MAX_OFFSET
  {
    LocatesIndex(text, i);
    NewlinesAndColumn(text, i);
    OffsetInText(text, i);
  }
}
