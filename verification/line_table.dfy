// The table of line starts a source text carries, and the lookup of a byte
// offset's line and column in it.

module LineTables {
  import opened QueryModel
  import opened Utf8
  import opened WirePositions

  // The byte offset every line starts at.
  function LineStarts(text: string): (starts: seq<nat>)
    ensures |starts| == Newlines(text) + 1 && starts[0] == 0
  {
    if text == "" then [0]
    else
      LineStarts(text[..|text| - 1]) + (if text[|text| - 1] == '\n' then [Bytes(text)] else [])
  }

  method BuildLineStarts(text: string) returns (starts: seq<nat>)
    ensures starts == LineStarts(text)
  {
    hide Bytes;
    starts := [0];
    var i, offset := 0, 0;
    OffsetAtEnds(text);
    while i < |text|
      invariant i <= |text| && starts == LineStarts(text[..i]) && offset == OffsetOf(text, i)
    {
      assert text[..i + 1][..i] == text[..i];
      OffsetAfter(text, i);
      offset := offset + Width(text[i]);
      if text[i] == '\n' { starts := starts + [offset]; }
      i := i + 1;
    }
    assert text[..i] == text;
  }

  // How many entries from the front lie at or before the offset.
  function PartitionPoint(starts: seq<nat>, offset: nat): (n: nat)
    ensures n <= |starts|
    ensures forall k :: 0 <= k < n ==> starts[k] <= offset
    ensures n < |starts| ==> starts[n] > offset
    decreases |starts|
  {
    if starts == [] || starts[0] > offset then 0 else 1 + PartitionPoint(starts[1..], offset)
  }

  // The scalar an offset stands at, if it is a character boundary of the text.
  method IndexOf(text: string, offset: nat) returns (r: Option<nat>)
    ensures r.Some? <==> Boundary(text, offset)
    ensures r.Some? ==> r.value <= |text| && OffsetOf(text, r.value) == offset
  {
    hide Bytes, OffsetOf;
    OffsetAtEnds(text);
    var i, at := 0, 0;
    while at < offset && i < |text|
      invariant i <= |text| && at == OffsetOf(text, i)
      invariant forall k :: 0 <= k < i ==> OffsetOf(text, k) < offset
    {
      OffsetAfter(text, i);
      at := at + Width(text[i]);
      i := i + 1;
    }
    if at == offset { return Some(i); }
    forall k | 0 <= k <= |text| ensures OffsetOf(text, k) != offset {
      if i < k { OffsetsIncrease(text, i, k); }
    }
    r := None;
  }

  method LineColOf(text: string, starts: seq<nat>, offset: nat) returns (r: Located)
    requires starts == LineStarts(text)
    ensures r == LocateOffset(text, offset)
  {
    hide Bytes, OffsetOf, LineStart, Newlines, LineStarts, LocateOffset;
    if offset > Bytes(text) {
      OffTheText(text, offset);
      return OutOfBounds;
    }
    var at := IndexOf(text, offset);
    if at.None? {
      OffTheText(text, offset);
      return NotCharBoundary;
    }
    var i := at.value;
    TableFindsLine(text, i);
    LocatesIndex(text, i);
    var line := PartitionPoint(starts, offset) - 1;
    var start := IndexOf(text, starts[line]);
    OffsetsDistinct(text, start.value, LineStart(text, i));
    r := At(LineCol(line, i - start.value));
  }

  lemma OffTheText(text: string, offset: nat)
    requires !Boundary(text, offset) || offset > Bytes(text)
    ensures LocateOffset(text, offset) == if offset > Bytes(text) then OutOfBounds else NotCharBoundary
  {}

  // The table entry found for a boundary is the start of its line: looking up the
  // table and counting newlines name the same line.
  lemma TableFindsLine(text: string, i: nat)
    requires i <= |text|
    ensures PartitionPoint(LineStarts(text), OffsetOf(text, i)) == Newlines(text[..i]) + 1
    ensures LineStarts(text)[Newlines(text[..i])] == OffsetOf(text, LineStart(text, i))
    ensures Boundary(text, OffsetOf(text, LineStart(text, i)))
  {
    hide Bytes, OffsetOf, LineStarts, LineStart, Newlines, PartitionPoint;
    EntryOfLine(text, i);
    var n, starts, at := Newlines(text[..i]), LineStarts(text), OffsetOf(text, i);
    assert Boundary(text, OffsetOf(text, LineStart(text, i)));
    if LineStart(text, i) < i { OffsetsIncrease(text, LineStart(text, i), i); }
    PartitionIs(starts, at, n + 1);
  }

  lemma {:induction false} PartitionIs(starts: seq<nat>, offset: nat, n: nat)
    requires 0 < n <= |starts|
    requires forall k :: 0 <= k < n ==> starts[k] <= starts[n - 1] <= offset
    requires n < |starts| ==> starts[n] > offset
    ensures PartitionPoint(starts, offset) == n
    decreases n
  {
    assert starts[0] <= offset;
    if n > 1 {
      assert forall k :: 0 <= k < n - 1 ==> starts[1..][k] == starts[k + 1];
      PartitionIs(starts[1..], offset, n - 1);
    }
  }

  // The table of a prefix ends with the start of the line the prefix ends in.
  lemma {:induction false} EntriesUpTo(text: string, i: nat)
    requires i <= |text|
    ensures var n, starts := Newlines(text[..i]), LineStarts(text[..i]);
      starts[n] == OffsetOf(text, LineStart(text, i)) && forall k :: 0 <= k < n ==> starts[k] <= starts[n]
  {
    hide Bytes;
    OffsetAtEnds(text);
    if i > 0 {
      EntriesUpTo(text, i - 1);
      assert text[..i][..i - 1] == text[..i - 1];
      OffsetsIncrease(text, LineStart(text, i - 1), i);
    }
  }

  // Later entries only come after it, past the prefix.
  lemma {:induction false} TableGrows(text: string, i: nat, j: nat)
    requires i <= j <= |text|
    ensures LineStarts(text[..i]) <= LineStarts(text[..j])
    ensures var starts := LineStarts(text[..j]);
      forall k :: Newlines(text[..i]) < k < |starts| ==> starts[k] > OffsetOf(text, i)
    decreases j
  {
    hide Bytes;
    if i < j {
      TableGrows(text, i, j - 1);
      assert text[..j][..j - 1] == text[..j - 1];
      OffsetsIncrease(text, i, j);
    }
  }

  // Entries grow; the one numbered by the newlines before `i` is where the line of
  // `i` starts, and the next one lies past `i`.
  lemma EntryOfLine(text: string, i: nat)
    requires i <= |text|
    ensures var n, starts := Newlines(text[..i]), LineStarts(text);
      && n < |starts| && starts[n] == OffsetOf(text, LineStart(text, i))
      && (forall k :: 0 <= k < n ==> starts[k] <= starts[n])
      && (n + 1 < |starts| ==> starts[n + 1] > OffsetOf(text, i))
  {
    hide Bytes, OffsetOf;
    EntriesUpTo(text, i);
    TableGrows(text, i, |text|);
    assert text[..|text|] == text;
  }
}
