// Dropping `spec NAME { ... }` blocks from a token stream by brace matching.

module SpecStripping {

  predicate Separator(tok: string) { tok == "}" || tok == ";" }

  // A `spec` token that opens the stream or follows `}` or `;`.
  predicate StartsSpec(toks: seq<string>, i: nat) {
    i < |toks| && toks[i] == "spec" && (i == 0 || Separator(toks[i - 1]))
  }

  function Step(tok: string): int {
    if tok == "{" then 1 else if tok == "}" then -1 else 0
  }

  // The first `{` at or after `j`, or the end.
  function HeaderEnd(toks: seq<string>, j: nat): (h: nat)
    requires j <= |toks|
    ensures j <= h <= |toks|
    ensures forall k :: j <= k < h ==> toks[k] != "{"
    ensures h < |toks| ==> toks[h] == "{"
    decreases |toks| - j
  {
    if j < |toks| && toks[j] != "{" then HeaderEnd(toks, j + 1) else j
  }

  // Just past the token that brings the depth back to zero, or the end.
  function GroupEnd(toks: seq<string>, j: nat, depth: int): (e: nat)
    requires j <= |toks|
    ensures j <= e <= |toks|
    ensures j < |toks| ==> j < e
    decreases |toks| - j
  {
    if j == |toks| then j
    else if depth + Step(toks[j]) == 0 then j + 1
    else GroupEnd(toks, j + 1, depth + Step(toks[j]))
  }

  function SpecEnd(toks: seq<string>, i: nat): (e: nat)
    requires StartsSpec(toks, i)
    ensures i < e <= |toks|
  {
    GroupEnd(toks, HeaderEnd(toks, i), 0)
  }

  // What is left of `toks` from `i` on.
  function Stripped(toks: seq<string>, i: nat): seq<string>
    requires i <= |toks|
    decreases |toks| - i
  {
    if i == |toks| then []
    else if StartsSpec(toks, i) then Stripped(toks, SpecEnd(toks, i))
    else [toks[i]] + Stripped(toks, i + 1)
  }

  method WithoutSpecs(toks: seq<string>) returns (out: seq<string>)
    ensures out == Stripped(toks, 0)
  {
    out := [];
    var i := 0;
    while i < |toks|
      invariant 0 <= i <= |toks|
      invariant out + Stripped(toks, i) == Stripped(toks, 0)
    {
      if toks[i] == "spec" && (i == 0 || toks[i - 1] == "}" || toks[i - 1] == ";") {
        var j := i;
        while j < |toks| && toks[j] != "{"
          invariant i <= j <= |toks|
          invariant HeaderEnd(toks, j) == HeaderEnd(toks, i)
        {
          j := j + 1;
        }
        var depth := 0;
        while j < |toks|
          invariant i < j <= |toks|
          invariant GroupEnd(toks, j, depth) == SpecEnd(toks, i)
        {
          depth := depth + Step(toks[j]);
          j := j + 1;
          if depth == 0 { break; }
        }
        assert j == SpecEnd(toks, i);
        i := j;
      } else {
        out := out + [toks[i]];
        i := i + 1;
      }
    }
  }

  // ---- Idempotence ----

  // A group that ends before the stream does ends in the `}` that closed it.
  lemma {:induction false} GroupEndsInBrace(toks: seq<string>, j: nat, depth: int)
    requires j <= |toks| && (depth > 0 || (depth == 0 && j < |toks| && toks[j] == "{"))
    ensures GroupEnd(toks, j, depth) < |toks| ==> toks[GroupEnd(toks, j, depth) - 1] == "}"
    decreases |toks| - j
  {
    if j < |toks| && depth + Step(toks[j]) != 0 { GroupEndsInBrace(toks, j + 1, depth + Step(toks[j])); }
  }

  ghost predicate NoSpecAfterSeparator(s: seq<string>) {
    forall p :: 0 < p < |s| && s[p] == "spec" ==> !Separator(s[p - 1])
  }

  lemma {:induction false} StrippedIsClean(toks: seq<string>, i: nat)
    requires i <= |toks|
    ensures NoSpecAfterSeparator(Stripped(toks, i))
    ensures Stripped(toks, i) != [] && Stripped(toks, i)[0] == "spec" ==> i > 0 && !Separator(toks[i - 1])
    decreases |toks| - i
  {
    if i < |toks| {
      if StartsSpec(toks, i) {
        var h, e := HeaderEnd(toks, i), SpecEnd(toks, i);
        StrippedIsClean(toks, e);
        if h < |toks| { GroupEndsInBrace(toks, h, 0); }
      } else {
        StrippedIsClean(toks, i + 1);
        var rest := Stripped(toks, i + 1);
        forall p | 0 < p < |rest| + 1 && ([toks[i]] + rest)[p] == "spec"
          ensures !Separator(([toks[i]] + rest)[p - 1])
        {
          if p > 1 { assert rest[p - 1] == "spec"; }
        }
      }
    }
  }

  lemma {:induction false} NothingToStrip(toks: seq<string>, i: nat)
    requires i <= |toks| && forall p :: 0 <= p < |toks| ==> !StartsSpec(toks, p)
    ensures Stripped(toks, i) == toks[i..]
    decreases |toks| - i
  {
    if i < |toks| { NothingToStrip(toks, i + 1); }
  }

  // Stripping what was stripped changes nothing.
  lemma StrippingIsIdempotent(toks: seq<string>)
    ensures Stripped(Stripped(toks, 0), 0) == Stripped(toks, 0)
  {
    var out := Stripped(toks, 0);
    StrippedIsClean(toks, 0);
    NothingToStrip(out, 0);
    assert out[0..] == out;
  }

  // ---- What is left, and where it stood ----

  // The places of the tokens left from `i` on.
  function Places(toks: seq<string>, i: nat): seq<nat>
    requires i <= |toks|
    decreases |toks| - i
  {
    if i == |toks| then []
    else if StartsSpec(toks, i) then Places(toks, SpecEnd(toks, i))
    else [i] + Places(toks, i + 1)
  }

  // What is left are tokens of the stream, each in its place and in order.
  lemma {:induction false} StrippedIsSubsequence(toks: seq<string>, i: nat)
    requires i <= |toks|
    ensures |Places(toks, i)| == |Stripped(toks, i)|
    ensures forall k :: 0 <= k < |Places(toks, i)| ==>
      i <= Places(toks, i)[k] < |toks| && Stripped(toks, i)[k] == toks[Places(toks, i)[k]]
    ensures forall j, k :: 0 <= j < k < |Places(toks, i)| ==> Places(toks, i)[j] < Places(toks, i)[k]
    decreases |toks| - i
  {
    if i < |toks| {
      StrippedIsSubsequence(toks, if StartsSpec(toks, i) then SpecEnd(toks, i) else i + 1);
    }
  }

  // A block that ends before the stream does ends in a brace.
  lemma SpecEndsInBrace(toks: seq<string>, i: nat)
    requires StartsSpec(toks, i) && SpecEnd(toks, i) < |toks|
    ensures toks[SpecEnd(toks, i) - 1] == "}"
  {
    if HeaderEnd(toks, i) < |toks| { GroupEndsInBrace(toks, HeaderEnd(toks, i), 0); }
  }

  // A token's neighbours are its own from the stream, or it met them across removed
  // blocks: then a separator stands before them and a closed brace at their end.
  predicate MeetsBefore(toks: seq<string>, at: seq<nat>, i: nat, k: nat)
    requires k < |at| && forall n :: 0 <= n < |at| ==> at[n] < |toks|
  {
    if k == 0 then at[0] == i || (at[0] > 0 && toks[at[0] - 1] == "}")
    else at[k] == at[k - 1] + 1 || (at[k] > 0 && toks[at[k] - 1] == "}" && Separator(toks[at[k - 1]]))
  }

  predicate MeetsAfter(toks: seq<string>, at: seq<nat>, k: nat)
    requires k < |at| && forall n :: 0 <= n < |at| ==> at[n] < |toks|
  {
    Separator(toks[at[k]]) || (if k + 1 < |at| then at[k + 1] == at[k] + 1 else at[k] + 1 == |toks|)
  }

  lemma {:induction false} PlacesMeet(toks: seq<string>, i: nat, k: nat)
    requires i <= |toks| && k < |Places(toks, i)|
    ensures forall n :: 0 <= n < |Places(toks, i)| ==> Places(toks, i)[n] < |toks|
    ensures MeetsBefore(toks, Places(toks, i), i, k) && MeetsAfter(toks, Places(toks, i), k)
    decreases |toks| - i
  {
    hide StartsSpec, Separator, SpecEnd;
    StrippedIsSubsequence(toks, i);
    if StartsSpec(toks, i) {
      var e := SpecEnd(toks, i);
      PlacesMeet(toks, e, k);
      if e < |toks| { SpecEndsInBrace(toks, i); }
    } else {
      var rest := Places(toks, i + 1);
      StrippedIsSubsequence(toks, i + 1);
      if k > 0 { PlacesMeet(toks, i + 1, k - 1); } else if rest != [] { PlacesMeet(toks, i + 1, 0); }
      FirstPlace(toks, i + 1);
    }
  }

  lemma FirstPlace(toks: seq<string>, i: nat)
    requires 0 < i <= |toks|
    ensures || Separator(toks[i - 1])
            || (if i == |toks| then Places(toks, i) == [] else Places(toks, i) != [] && Places(toks, i)[0] == i)
  {}

  // Streams that agree on the tokens stripping looks at lose the same places.
  predicate SameSign(a: string, b: string) {
    (a == "spec" <==> b == "spec") && (a == "{" <==> b == "{") && (a == "}" <==> b == "}") && (a == ";" <==> b == ";")
  }

  predicate SameSigns(s: seq<string>, t: seq<string>) {
    |s| == |t| && forall i :: 0 <= i < |s| ==> SameSign(s[i], t[i])
  }

  lemma {:induction false} SameHeaderEnd(s: seq<string>, t: seq<string>, j: nat)
    requires SameSigns(s, t) && j <= |s|
    ensures HeaderEnd(s, j) == HeaderEnd(t, j)
    decreases |s| - j
  {
    if j < |s| { SameHeaderEnd(s, t, j + 1); }
  }

  lemma {:induction false} SameGroupEnd(s: seq<string>, t: seq<string>, j: nat, depth: int)
    requires SameSigns(s, t) && j <= |s|
    ensures GroupEnd(s, j, depth) == GroupEnd(t, j, depth)
    decreases |s| - j
  {
    if j < |s| { SameGroupEnd(s, t, j + 1, depth + Step(s[j])); }
  }

  lemma {:induction false} SamePlaces(s: seq<string>, t: seq<string>, i: nat)
    requires SameSigns(s, t) && i <= |s|
    ensures Places(s, i) == Places(t, i)
    decreases |s| - i
  {
    if i < |s| {
      assert i > 0 ==> SameSign(s[i - 1], t[i - 1]);
      if StartsSpec(s, i) {
        SameHeaderEnd(s, t, i);
        SameGroupEnd(s, t, HeaderEnd(s, i), 0);
        SamePlaces(s, t, SpecEnd(s, i));
      } else {
        SamePlaces(s, t, i + 1);
      }
    }
  }

  // ---- Braces ----

  function Net(s: seq<string>): int {
    if s == [] then 0 else Net(s[..|s| - 1]) + Step(s[|s| - 1])
  }

  ghost predicate Balanced(s: seq<string>) {
    Net(s) == 0 && forall n :: 0 <= n <= |s| ==> Net(s[..n]) >= 0
  }

  lemma {:induction false} NetJoins(a: seq<string>, b: seq<string>)
    ensures Net(a + b) == Net(a) + Net(b)
  {
    if b == [] {
      assert a + b == a;
    } else {
      NetJoins(a, b[..|b| - 1]);
      assert (a + b)[..|a + b| - 1] == a + b[..|b| - 1];
    }
  }

  lemma NetSplits(toks: seq<string>, i: nat, j: nat)
    requires i <= j <= |toks|
    ensures Net(toks[..j]) == Net(toks[..i]) + Net(toks[i..j])
  {
    NetJoins(toks[..i], toks[i..j]);
    assert toks[..i] + toks[i..j] == toks[..j];
  }

  // The `}` tokens among `s`.
  function Closers(s: seq<string>): nat {
    if s == [] then 0 else Closers(s[..|s| - 1]) + (if s[|s| - 1] == "}" then 1 else 0)
  }

  lemma {:induction false} HeaderNet(s: seq<string>)
    requires forall k :: 0 <= k < |s| ==> s[k] != "{"
    ensures Net(s) == 0 - Closers(s)
  {
    if s != [] { HeaderNet(s[..|s| - 1]); }
  }

  // From its `{` on, a group that closes is balanced in itself; one that does not
  // leaves the depth positive at the end of the stream.
  lemma {:induction false} GroupNet(toks: seq<string>, start: nat, j: nat)
    requires start <= j <= |toks| && start < |toks| && toks[start] == "{"
    requires start < j ==> Net(toks[start..j]) > 0
    requires forall n :: start < n <= j ==> Net(toks[start..n]) > 0
    ensures var e := GroupEnd(toks, j, Net(toks[start..j]));
      && start < e
      && (Net(toks[start..e]) == 0 || (e == |toks| && Net(toks[start..e]) > 0))
      && (forall n :: start < n < e ==> Net(toks[start..n]) > 0)
    decreases |toks| - j
  {
    if j < |toks| {
      var next := toks[start..j + 1];
      assert next[..|next| - 1] == toks[start..j];
      assert Net(next) == Net(toks[start..j]) + Step(toks[j]);
      if Net(next) != 0 { GroupNet(toks, start, j + 1); }
    }
  }

  // The `}` tokens that stood between a removed `spec` and its `{`.
  function HeaderClosers(toks: seq<string>, i: nat): nat
    requires i <= |toks|
    decreases |toks| - i
  {
    if i == |toks| then 0
    else if StartsSpec(toks, i) then
      Closers(toks[i..HeaderEnd(toks, i)]) + HeaderClosers(toks, SpecEnd(toks, i))
    else HeaderClosers(toks, i + 1)
  }

  // In a balanced stream every removed block has its header's closers as its net.
  lemma RemovedNet(toks: seq<string>, i: nat)
    requires Balanced(toks) && StartsSpec(toks, i)
    ensures Net(toks[..SpecEnd(toks, i)]) == Net(toks[..i]) - Closers(toks[i..HeaderEnd(toks, i)])
    ensures HeaderEnd(toks, i) < |toks| ==> Balanced(toks[HeaderEnd(toks, i)..SpecEnd(toks, i)])
  {
    var h, e := HeaderEnd(toks, i), SpecEnd(toks, i);
    NetSplits(toks, i, h);
    HeaderNet(toks[i..h]);
    if h < |toks| {
      assert toks[h..h] == [];
      GroupNet(toks, h, h);
      NetSplits(toks, h, e);
      assert Net(toks[..h]) >= 0;
      assert toks[..|toks|] == toks;
      var group := toks[h..e];
      forall n | 0 <= n <= |group| ensures Net(group[..n]) >= 0 {
        assert group[..n] == toks[h..h + n];
      }
    }
  }

  // Whatever was kept so far, keeping on never dips below zero and ends higher by
  // the closers removed.
  lemma {:induction false} StrippedNet(toks: seq<string>, i: nat, n: nat)
    requires Balanced(toks) && i <= |toks| && n <= |Stripped(toks, i)|
    ensures Net(toks[..i]) + Net(Stripped(toks, i)) == HeaderClosers(toks, i)
    ensures Net(toks[..i]) + Net(Stripped(toks, i)[..n]) >= 0
    decreases |toks| - i
  {
    if i == |toks| {
      assert toks[..i] == toks;
    } else if StartsSpec(toks, i) {
      RemovedNet(toks, i);
      StrippedNet(toks, SpecEnd(toks, i), n);
    } else {
      var rest := Stripped(toks, i + 1);
      StrippedNet(toks, i + 1, if n == 0 then 0 else n - 1);
      NetSplits(toks, i, i + 1);
      assert toks[i..i + 1] == [toks[i]];
      NetJoins([toks[i]], rest);
      if n > 0 {
        assert ([toks[i]] + rest)[..n] == [toks[i]] + rest[..n - 1];
        NetJoins([toks[i]], rest[..n - 1]);
      } else {
        assert Net(toks[..i]) >= 0;
      }
    }
  }

  // Stripping a balanced stream leaves a balanced stream exactly when no removed
  // block had a `}` before its `{`.
  lemma StrippingKeepsBalanceExactly(toks: seq<string>)
    requires Balanced(toks)
    ensures Balanced(Stripped(toks, 0)) <==> HeaderClosers(toks, 0) == 0
  {
    var out := Stripped(toks, 0);
    assert toks[..0] == [];
    StrippedNet(toks, 0, 0);
    forall n | 0 <= n <= |out| ensures Net(out[..n]) >= 0 {
      StrippedNet(toks, 0, n);
    }
  }

  // `spec` used as an ordinary name at the end of a block swallows the next
  // function and with it an unmatched brace.
  lemma StrippingCanUnbalance()
    ensures var toks := ["{", ";", "spec", "}", "fn", "{", "}"];
      Balanced(toks) && !Balanced(Stripped(toks, 0))
  {
    var toks := ["{", ";", "spec", "}", "fn", "{", "}"];
    assert toks[..1] == [] + ["{"];
    forall n | 0 <= n < |toks| ensures Net(toks[..n + 1]) == Net(toks[..n]) + Step(toks[n]) {
      assert toks[..n + 1][..n] == toks[..n];
    }
    assert toks[..0] == [] && toks[..7] == toks;
    assert Net(toks[..1]) == 1 && Net(toks[..2]) == 1 && Net(toks[..3]) == 1 && Net(toks[..4]) == 0;
    assert Net(toks[..5]) == 0 && Net(toks[..6]) == 1 && Net(toks[..7]) == 0;
    assert HeaderEnd(toks, 2) == 5 && SpecEnd(toks, 2) == 7;
    assert toks[2..5] == ["spec", "}", "fn"];
    assert Closers(["spec", "}", "fn"]) == 1 by {
      assert ["spec", "}", "fn"][..2] == ["spec", "}"] && ["spec", "}"][..1] == ["spec"];
    }
    assert HeaderClosers(toks, 2) == 1 + HeaderClosers(toks, 7);
    assert HeaderClosers(toks, 0) == 1;
    StrippingKeepsBalanceExactly(toks);
  }

  // ---- Programs written as items and spec blocks ----

  // Other items, up to and with the separator that ends them, and spec blocks: the word,
  // a header and one group of braces.
  datatype Part = Items(toks: seq<string>) | SpecBlock(header: seq<string>, group: seq<string>)

  function Written(item: Part): seq<string> {
    match item
    case Items(toks) => toks
    case SpecBlock(header, group) => ["spec"] + header + group
  }

  function WrittenAll(items: seq<Part>): seq<string> {
    if items == [] then [] else Written(items[0]) + WrittenAll(items[1..])
  }

  function WithoutBlocks(items: seq<Part>): seq<string> {
    if items == [] then []
    else (if items[0].Items? then items[0].toks else []) + WithoutBlocks(items[1..])
  }

  // A group opens with its first token and closes with its last.
  ghost predicate IsGroup(s: seq<string>) {
    s != [] && s[0] == "{" && Net(s) == 0 && forall n :: 0 < n < |s| ==> Net(s[..n]) > 0
  }

  ghost predicate WellWritten(item: Part) {
    match item
    case Items(toks) =>
      toks != [] && toks[0] != "spec" && Separator(toks[|toks| - 1]) && NoSpecAfterSeparator(toks)
    case SpecBlock(header, group) => "{" !in header && IsGroup(group)
  }

  lemma {:induction false} HeaderEndIs(toks: seq<string>, j: nat, h: nat)
    requires j <= h < |toks| && toks[h] == "{" && forall k :: j <= k < h ==> toks[k] != "{"
    ensures HeaderEnd(toks, j) == h
    decreases h - j
  {
    if j < h { HeaderEndIs(toks, j + 1, h); }
  }

  lemma {:induction false} GroupEndIs(toks: seq<string>, start: nat, j: nat, end: nat)
    requires start <= j < end <= |toks| && IsGroup(toks[start..end])
    ensures GroupEnd(toks, j, Net(toks[start..j])) == end
    decreases end - j
  {
    var group := toks[start..end];
    var next := toks[start..j + 1];
    assert next[..|next| - 1] == toks[start..j];
    assert next == group[..j + 1 - start];
    assert group[..|group|] == group;
    if j + 1 < end { GroupEndIs(toks, start, j + 1, end); }
  }

  lemma {:induction false} Copied(toks: seq<string>, i: nat, j: nat)
    requires i <= j <= |toks| && forall k :: i <= k < j ==> !StartsSpec(toks, k)
    ensures Stripped(toks, i) == toks[i..j] + Stripped(toks, j)
    decreases j - i
  {
    if i < j { Copied(toks, i + 1, j); }
  }

  // The items stand in a stream from `i` to its end.
  predicate StandFrom(toks: seq<string>, i: nat, items: seq<Part>)
    decreases |items|
  {
    if items == [] then i == |toks|
    else
      var j := i + |Written(items[0])|;
      j <= |toks| && toks[i..j] == Written(items[0]) && StandFrom(toks, j, items[1..])
  }

  lemma {:induction false} WrittenStand(front: seq<string>, items: seq<Part>)
    ensures StandFrom(front + WrittenAll(items), |front|, items)
    decreases |items|
  {
    hide Written;
    if items != [] {
      var w, rest := Written(items[0]), WrittenAll(items[1..]);
      assert front + (w + rest) == (front + w) + rest;
      WrittenStand(front + w, items[1..]);
    }
  }

  // Other items are copied...
  lemma ItemsAreCopied(toks: seq<string>, i: nat, j: nat, item: Part)
    requires item.Items? && WellWritten(item) && i <= j <= |toks| && toks[i..j] == item.toks
    ensures Stripped(toks, i) == item.toks + Stripped(toks, j)
  {
    hide Stripped, Separator;
    forall k | i <= k < j ensures !StartsSpec(toks, k) {
      assert toks[k] == item.toks[k - i];
      assert k > i ==> toks[k - 1] == item.toks[k - 1 - i];
    }
    Copied(toks, i, j);
  }

  // ...and a block is passed over.
  lemma BlockEnds(toks: seq<string>, i: nat, h: nat, e: nat)
    requires i < h < e <= |toks| && StartsSpec(toks, i)
    requires "{" !in toks[i + 1..h] && IsGroup(toks[h..e])
    ensures SpecEnd(toks, i) == e
  {
    hide Net;
    assert toks[h] == toks[h..e][0];
    assert forall k :: i < k < h ==> toks[k] == toks[i + 1..h][k - i - 1];
    HeaderEndIs(toks, i, h);
    NetOfNothing(toks, h);
    GroupEndIs(toks, h, h, e);
  }

  lemma NetOfNothing(toks: seq<string>, h: nat)
    requires h <= |toks|
    ensures Net(toks[h..h]) == 0
  {}

  lemma BlockSplits(toks: seq<string>, i: nat, j: nat, item: Part)
    requires item.SpecBlock? && i <= j <= |toks| && toks[i..j] == Written(item)
    ensures var h := i + 1 + |item.header|;
      h <= j && toks[i] == "spec" && toks[i + 1..h] == item.header && toks[h..j] == item.group
  {
    var w, h := Written(item), i + 1 + |item.header|;
    assert |w| == 1 + |item.header| + |item.group|;
    assert forall k :: i <= k < j ==> toks[k] == toks[i..j][k - i];
    assert toks[i] == w[0];
    assert toks[i + 1..h] == item.header;
    assert toks[h..j] == item.group;
  }

  lemma BlockIsDropped(toks: seq<string>, i: nat, j: nat, item: Part)
    requires item.SpecBlock? && WellWritten(item) && i <= j <= |toks| && toks[i..j] == Written(item)
    requires i == 0 || Separator(toks[i - 1])
    ensures Stripped(toks, i) == Stripped(toks, j)
  {
    hide Net, Separator, HeaderEnd, GroupEnd;
    BlockSplits(toks, i, j, item);
    BlockEnds(toks, i, i + 1 + |item.header|, j);
  }

  lemma LastCloses(group: seq<string>)
    requires IsGroup(group)
    ensures group[|group| - 1] == "}"
  {
    assert Net(group) == Net(group[..|group| - 1]) + Step(group[|group| - 1]);
    assert group[..0] == [];
  }

  lemma EndsSeparated(item: Part)
    requires WellWritten(item)
    ensures Written(item) != [] && Separator(Written(item)[|Written(item)| - 1])
  {
    if item.SpecBlock? { LastCloses(item.group); }
  }

  lemma {:induction false} StrippedFrom(toks: seq<string>, i: nat, items: seq<Part>)
    requires forall k :: 0 <= k < |items| ==> WellWritten(items[k])
    requires i <= |toks| && (i == 0 || Separator(toks[i - 1])) && StandFrom(toks, i, items)
    ensures Stripped(toks, i) == WithoutBlocks(items)
    decreases |items|
  {
    hide WellWritten, Separator, Written;
    if items != [] {
      hide Stripped;
      var item, j := items[0], i + |Written(items[0])|;
      EndsSeparated(item);
      assert toks[j - 1] == toks[i..j][j - 1 - i];
      StrippedFrom(toks, j, items[1..]);
      if item.Items? {
        WrittenItems(item);
        ItemsAreCopied(toks, i, j, item);
      } else {
        BlockIsDropped(toks, i, j, item);
      }
    }
  }

  lemma WrittenItems(item: Part)
    requires item.Items?
    ensures Written(item) == item.toks
  {}

  // Of a program written as items and spec blocks, stripping leaves exactly the items.
  lemma StripsSpecBlocks(items: seq<Part>)
    requires forall i :: 0 <= i < |items| ==> WellWritten(items[i])
    ensures Stripped(WrittenAll(items), 0) == WithoutBlocks(items)
  {
    hide WellWritten, Stripped, StandFrom;
    WrittenStand([], items);
    assert [] + WrittenAll(items) == WrittenAll(items);
    StrippedFrom(WrittenAll(items), 0, items);
  }
}
