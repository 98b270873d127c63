// The content digest that pins a benchmark task, and what it can and cannot tell.

module TaskDigests {
  import opened BenchTasks
  import opened Decimals
  import opened Fnv1a
  import opened QueryModel
  import opened Utf8

  // ---- The fields a digest folds ----

  type Name = s: string | forall i :: 0 <= i < |s| ==> '.' <= s[i] <= 'z'

  datatype Field = Field(name: Name, value: string)

  function Numbered(prefix: Name, values: seq<string>): (fs: seq<Field>)
    ensures |fs| == |values|
  {
    seq(|values|, i requires 0 <= i < |values| => Field(prefix + Decimal(i), values[i]))
  }

  function VariantFields(variants: seq<SyntaxVariant>, i: nat): seq<Field>
    requires i <= |variants|
    decreases |variants| - i
  {
    if i == |variants| then []
    else OneVariant(variants[i], i) + VariantFields(variants, i + 1)
  }

  function OneVariant(v: SyntaxVariant, i: nat): seq<Field> {
    var name: Name := "variant" + Decimal(i);
    [Field(name + ".label", v.labelText), Field(name + ".note", v.note)] + Numbered(name + ".spec", v.specs)
  }

  function Fields(t: BenchTask): seq<Field> {
    [Field("id", t.id), Field("instruction", t.instruction)]
    + Numbered("spec", t.specs)
    + Numbered("test", t.tests)
    + VariantFields(t.variants, 0)
  }

  function Frame(f: Field): seq<Byte> { Framed(Encode(f.name), Encode(f.value)) }

  function Stream(fs: seq<Field>): seq<Byte> {
    if fs == [] then [] else Frame(fs[0]) + Stream(fs[1..])
  }

  function DigestOf(t: BenchTask): string { Hex(Fold(OFFSET, Stream(Fields(t)))) }

  lemma {:induction false} StreamAppends(fs: seq<Field>, gs: seq<Field>)
    ensures Stream(fs + gs) == Stream(fs) + Stream(gs)
  {
    if fs == [] {
      assert fs + gs == gs;
    } else {
      assert (fs + gs)[1..] == fs[1..] + gs;
      StreamAppends(fs[1..], gs);
    }
  }

  // ---- The bytes of a digest ----

  // One field as it is written: its name, a unit separator, its value, a record separator.
  function Line(name: string, value: string): seq<Byte> { Encode(name) + [0x1f] + Encode(value) + [0x1e] }

  // The whole stream of a benchmark task with one spec, one test and one variant with a
  // spec of its own.
  lemma StreamSpelledOut(t: BenchTask, spec: string, test: string, v: SyntaxVariant, own: string)
    requires t.specs == [spec] && t.tests == [test] && t.variants == [v] && v.specs == [own]
    ensures Stream(Fields(t)) ==
      Concat([Line("id", t.id), Line("instruction", t.instruction), Line("spec0", spec), Line("test0", test),
        Line("variant0.label", v.labelText), Line("variant0.note", v.note), Line("variant0.spec0", own)])
  {
    hide Encode, Concat, Stream;
    assert Decimal(0) == "0";
    assert Numbered("spec", [spec]) == [Field("spec0", spec)] by { assert "spec" + "0" == "spec0"; }
    assert Numbered("test", [test]) == [Field("test0", test)] by { assert "test" + "0" == "test0"; }
    VariantSpelledOut(v, own);
    assert VariantFields([v], 1) == [];
    var fs := [Field("id", t.id), Field("instruction", t.instruction), Field("spec0", spec), Field("test0", test),
      Field("variant0.label", v.labelText), Field("variant0.note", v.note), Field("variant0.spec0", own)];
    assert Fields(t) == fs;
    StreamIsConcat(fs);
    assert Frames(fs) == [Line("id", t.id), Line("instruction", t.instruction), Line("spec0", spec),
      Line("test0", test), Line("variant0.label", v.labelText), Line("variant0.note", v.note),
      Line("variant0.spec0", own)];
  }

  lemma VariantSpelledOut(v: SyntaxVariant, own: string)
    requires v.specs == [own]
    ensures OneVariant(v, 0) == [
      Field("variant0.label", v.labelText), Field("variant0.note", v.note), Field("variant0.spec0", own)]
  {
    assert Decimal(0) == "0" && "variant" + "0" == "variant0";
    assert "variant0" + ".label" == "variant0.label" && "variant0" + ".note" == "variant0.note";
    assert "variant0" + ".spec" == "variant0.spec" && "variant0.spec" + "0" == "variant0.spec0";
    assert Numbered("variant0.spec", [own]) == [Field("variant0.spec0", own)];
  }

  function Concat(lines: seq<seq<Byte>>): seq<Byte> { if lines == [] then [] else lines[0] + Concat(lines[1..]) }

  function Frames(fs: seq<Field>): seq<seq<Byte>> { seq(|fs|, i requires 0 <= i < |fs| => Frame(fs[i])) }

  lemma {:induction false} StreamIsConcat(fs: seq<Field>)
    ensures Stream(fs) == Concat(Frames(fs))
  {
    hide Frame;
    if fs != [] {
      StreamIsConcat(fs[1..]);
      assert Frames(fs)[1..] == Frames(fs[1..]);
    }
  }

  // ---- Computing it ----

  lemma FoldFieldNext(start: U64, done: seq<Field>, next: seq<Field>)
    ensures Fold(Fold(start, Stream(done)), Stream(next)) == Fold(start, Stream(done + next))
  {
    StreamAppends(done, next);
    FoldAppends(start, Stream(done), Stream(next));
  }

  lemma FoldNothing(start: U64)
    ensures Fold(start, Stream([])) == start
  {}

  method FoldOne(h: Fnv, f: Field)
    modifies h
    ensures h.state == Fold(old(h.state), Stream([f]))
  {
    assert Stream([f]) == Frame(f);
    h.Field(Encode(f.name), Encode(f.value));
  }

  method FoldNumbered(h: Fnv, prefix: Name, values: seq<string>)
    modifies h
    ensures h.state == Fold(old(h.state), Stream(Numbered(prefix, values)))
  {
    hide Stream, Fold;
    ghost var all := Numbered(prefix, values);
    FoldNothing(h.state);
    var i := 0;
    while i < |values|
      invariant i <= |values| && h.state == Fold(old(h.state), Stream(all[..i]))
    {
      FoldFieldNext(old(h.state), all[..i], [all[i]]);
      assert all[..i] + [all[i]] == all[..i + 1];
      FoldOne(h, Field(prefix + Decimal(i), values[i]));
      i := i + 1;
    }
    assert all[..i] == all;
  }

  method FoldVariant(h: Fnv, v: SyntaxVariant, i: nat)
    modifies h
    ensures h.state == Fold(old(h.state), Stream(OneVariant(v, i)))
  {
    hide Stream, Fold;
    var name: Name := "variant" + Decimal(i);
    ghost var a, b := Field(name + ".label", v.labelText), Field(name + ".note", v.note);
    FoldOne(h, Field(name + ".label", v.labelText));
    FoldOne(h, Field(name + ".note", v.note));
    FoldFieldNext(old(h.state), [a], [b]);
    FoldNumbered(h, name + ".spec", v.specs);
    FoldFieldNext(old(h.state), [a] + [b], Numbered(name + ".spec", v.specs));
    assert [a] + [b] == [a, b];
  }

  method FoldVariants(h: Fnv, variants: seq<SyntaxVariant>)
    modifies h
    ensures h.state == Fold(old(h.state), Stream(VariantFields(variants, 0)))
  {
    hide Stream, Fold, OneVariant, VariantFields;
    ghost var done: seq<Field> := [];
    FoldNothing(h.state);
    var i := 0;
    while i < |variants|
      invariant i <= |variants| && h.state == Fold(old(h.state), Stream(done))
      invariant done + VariantFields(variants, i) == VariantFields(variants, 0)
    {
      FoldVariant(h, variants[i], i);
      FoldFieldNext(old(h.state), done, OneVariant(variants[i], i));
      NextVariant(variants, i, done);
      done := done + OneVariant(variants[i], i);
      i := i + 1;
    }
    NoVariants(variants);
    assert done + [] == done;
  }

  lemma NextVariant(variants: seq<SyntaxVariant>, i: nat, done: seq<Field>)
    requires i < |variants|
    ensures done + VariantFields(variants, i) == (done + OneVariant(variants[i], i)) + VariantFields(variants, i + 1)
  {
    hide OneVariant;
  }

  lemma NoVariants(variants: seq<SyntaxVariant>)
    ensures VariantFields(variants, |variants|) == []
  {}

  method ComputeDigest(t: BenchTask) returns (digest: string)
    ensures digest == DigestOf(t)
  {
    hide Stream, Fold, VariantFields;
    var h := new Fnv();
    ghost var a, b := Field("id", t.id), Field("instruction", t.instruction);
    FoldOne(h, Field("id", t.id));
    FoldOne(h, Field("instruction", t.instruction));
    FoldFieldNext(OFFSET, [a], [b]);
    FoldNumbered(h, "spec", t.specs);
    FoldFieldNext(OFFSET, [a] + [b], Numbered("spec", t.specs));
    FoldNumbered(h, "test", t.tests);
    FoldFieldNext(OFFSET, [a] + [b] + Numbered("spec", t.specs), Numbered("test", t.tests));
    FoldVariants(h, t.variants);
    FoldFieldNext(OFFSET, [a] + [b] + Numbered("spec", t.specs) + Numbered("test", t.tests),
                  VariantFields(t.variants, 0));
    assert [a] + [b] == [a, b];
    digest := Hex(h.state);
  }

  // ---- The framing decodes one way ----

  const FIELD_END_CHAR: char := FIELD_END as char
  const NAME_END_CHAR: char := NAME_END as char

  predicate CleanText(v: string) { NAME_END_CHAR !in v && FIELD_END_CHAR !in v }

  predicate CleanTexts(vs: seq<string>) { forall i :: 0 <= i < |vs| ==> CleanText(vs[i]) }

  // No string of a benchmark task holds one of the two separator characters.
  predicate CleanTask(t: BenchTask) {
    && CleanText(t.id) && CleanText(t.instruction) && CleanTexts(t.specs) && CleanTexts(t.tests)
    && forall i :: 0 <= i < |t.variants| ==> CleanVariant(t.variants[i])
  }

  predicate CleanVariant(v: SyntaxVariant) {
    CleanText(v.labelText) && CleanText(v.note) && CleanTexts(v.specs)
  }

  predicate Clean(fs: seq<Field>) { forall i :: 0 <= i < |fs| ==> CleanText(fs[i].value) }

  lemma {:induction false} SplitsAtSeparator(a: seq<Byte>, b: seq<Byte>, sep: Byte, x: seq<Byte>, y: seq<Byte>)
    requires sep !in a && sep !in b && a + [sep] + x == b + [sep] + y
    ensures a == b && x == y
  {
    assert (a + [sep] + x)[0] == (if a == [] then sep else a[0]);
    assert (b + [sep] + y)[0] == (if b == [] then sep else b[0]);
    assert (a + [sep] + x)[1..] == if a == [] then x else a[1..] + [sep] + x;
    assert (b + [sep] + y)[1..] == if b == [] then y else b[1..] + [sep] + y;
    if a != [] {
      SplitsAtSeparator(a[1..], b[1..], sep, x, y);
      assert a == [a[0]] + a[1..] && b == [b[0]] + b[1..];
    }
  }

  lemma OneFieldDecodes(f: Field, g: Field, x: seq<Byte>, y: seq<Byte>)
    requires CleanText(f.value) && CleanText(g.value) && Frame(f) + x == Frame(g) + y
    ensures f == g && x == y
  {
    hide Encode;
    var m, n, v, w := Encode(f.name), Encode(g.name), Encode(f.value), Encode(g.value);
    AsciiStandsForItself(f.name, NAME_END_CHAR);
    AsciiStandsForItself(g.name, NAME_END_CHAR);
    AsciiStandsForItself(f.value, FIELD_END_CHAR);
    AsciiStandsForItself(g.value, FIELD_END_CHAR);
    assert Frame(f) + x == m + [NAME_END] + (v + [FIELD_END] + x);
    assert Frame(g) + y == n + [NAME_END] + (w + [FIELD_END] + y);
    SplitsAtSeparator(m, n, NAME_END, v + [FIELD_END] + x, w + [FIELD_END] + y);
    SplitsAtSeparator(v, w, FIELD_END, x, y);
    EncodingDecodes(f.name, g.name);
    EncodingDecodes(f.value, g.value);
  }

  // Clean fields are recovered from the bytes they are framed in.
  lemma {:induction false} FramingDecodes(fs: seq<Field>, gs: seq<Field>)
    requires Clean(fs) && Clean(gs) && Stream(fs) == Stream(gs)
    ensures fs == gs
  {
    if fs != [] && gs != [] {
      OneFieldDecodes(fs[0], gs[0], Stream(fs[1..]), Stream(gs[1..]));
      FramingDecodes(fs[1..], gs[1..]);
      assert fs == [fs[0]] + fs[1..] && gs == [gs[0]] + gs[1..];
    }
  }

  // ---- The fields tell their benchmark task ----

  // Everything the digest is meant to pin.
  predicate SameContent(t: BenchTask, u: BenchTask) {
    t.(tags := []) == u.(tags := [])
  }

  predicate Starts(f: Field, c: char) { f.name != "" && f.name[0] == c }

  predicate EndsInDigit(f: Field) { f.name != "" && IsDigit(f.name[|f.name| - 1]) }

  predicate HeadIs(fs: seq<Field>, p: Field -> bool) { fs != [] && p(fs[0]) }

  // Runs of fields end where the property they share stops holding.
  lemma {:induction false} RunsSplit(v: seq<Field>, w: seq<Field>, x: seq<Field>, y: seq<Field>, p: Field -> bool)
    requires forall i :: 0 <= i < |v| ==> p(v[i])
    requires forall i :: 0 <= i < |w| ==> p(w[i])
    requires !HeadIs(x, p) && !HeadIs(y, p) && v + x == w + y
    ensures v == w && x == y
  {
    assert HeadIs(v + x, p) == (v != []) && HeadIs(w + y, p) == (w != []);
    if v == [] {
      assert v + x == x && w + y == y;
    } else {
      assert (v + x)[1..] == v[1..] + x && (w + y)[1..] == w[1..] + y;
      assert v[0] == (v + x)[0] && w[0] == (w + y)[0];
      RunsSplit(v[1..], w[1..], x, y, p);
      assert v == [v[0]] + v[1..] && w == [w[0]] + w[1..];
    }
  }

  lemma NumberedTellsValues(prefix: Name, v: seq<string>, w: seq<string>)
    requires Numbered(prefix, v) == Numbered(prefix, w)
    ensures v == w
  {
    assert |v| == |w|;
    assert forall i :: 0 <= i < |v| ==> v[i] == Numbered(prefix, v)[i].value;
    assert forall i :: 0 <= i < |w| ==> w[i] == Numbered(prefix, w)[i].value;
  }

  // Numbered fields end where a name stops starting with their letter.
  lemma RunsSplitByLetter(prefix: Name, c: char, v: seq<string>, w: seq<string>, x: seq<Field>, y: seq<Field>)
    requires prefix != "" && prefix[0] == c
    requires (x != [] ==> !Starts(x[0], c)) && (y != [] ==> !Starts(y[0], c))
    requires Numbered(prefix, v) + x == Numbered(prefix, w) + y
    ensures v == w && x == y
  {
    RunsSplit(Numbered(prefix, v), Numbered(prefix, w), x, y, f => Starts(f, c));
    NumberedTellsValues(prefix, v, w);
  }

  // Or where a name stops ending in a digit.
  lemma RunsSplitByDigit(prefix: Name, v: seq<string>, w: seq<string>, x: seq<Field>, y: seq<Field>)
    requires (x != [] ==> !EndsInDigit(x[0])) && (y != [] ==> !EndsInDigit(y[0]))
    requires Numbered(prefix, v) + x == Numbered(prefix, w) + y
    ensures v == w && x == y
  {
    RunsSplit(Numbered(prefix, v), Numbered(prefix, w), x, y, EndsInDigit);
    NumberedTellsValues(prefix, v, w);
  }

  lemma VariantsStart(variants: seq<SyntaxVariant>, i: nat)
    requires i <= |variants|
    ensures var fs := VariantFields(variants, i);
      (fs == [] <==> i == |variants|) && (fs != [] ==> Starts(fs[0], 'v') && !EndsInDigit(fs[0]))
  {}

  lemma {:induction false} FieldsTellVariants(v: seq<SyntaxVariant>, w: seq<SyntaxVariant>, i: nat)
    requires i <= |v| && i <= |w| && v[..i] == w[..i]
    requires VariantFields(v, i) == VariantFields(w, i)
    ensures v == w
    decreases |v| - i
  {
    hide VariantFields;
    VariantsStart(v, i);
    VariantsStart(w, i);
    if i == |v| || i == |w| {
      assert v == v[..i] && w == w[..i];
    } else {
      OneVariantTold(v, w, i);
      assert v[..i + 1] == v[..i] + [v[i]] && w[..i + 1] == w[..i] + [w[i]];
      FieldsTellVariants(v, w, i + 1);
    }
  }

  lemma OneVariantTold(v: seq<SyntaxVariant>, w: seq<SyntaxVariant>, i: nat)
    requires i < |v| && i < |w| && VariantFields(v, i) == VariantFields(w, i)
    ensures v[i] == w[i] && VariantFields(v, i + 1) == VariantFields(w, i + 1)
  {
    hide Numbered;
    var name: Name := "variant" + Decimal(i) + ".spec";
    var x, y := VariantFields(v, i + 1), VariantFields(w, i + 1);
    var l, r := VariantFields(v, i), VariantFields(w, i);
    VariantsStart(v, i + 1);
    VariantsStart(w, i + 1);
    assert l[0].value == v[i].labelText && l[1].value == v[i].note;
    assert r[0].value == w[i].labelText && r[1].value == w[i].note;
    assert l[2..] == Numbered(name, v[i].specs) + x && r[2..] == Numbered(name, w[i].specs) + y;
    RunsSplitByDigit(name, v[i].specs, w[i].specs, x, y);
  }

  function TestsOn(t: BenchTask): seq<Field> { Numbered("test", t.tests) + VariantFields(t.variants, 0) }

  lemma FieldsApart(t: BenchTask)
    ensures |Fields(t)| >= 2 && Fields(t)[0].value == t.id && Fields(t)[1].value == t.instruction
    ensures Fields(t)[2..] == Numbered("spec", t.specs) + TestsOn(t)
    ensures TestsOn(t) != [] ==> !Starts(TestsOn(t)[0], 's')
  {
    hide VariantFields;
    VariantsStart(t.variants, 0);
    assert t.tests != [] ==> TestsOn(t)[0].name == "test" + Decimal(0);
  }

  lemma FieldsTellTasks(t: BenchTask, u: BenchTask)
    requires Fields(t) == Fields(u)
    ensures SameContent(t, u)
  {
    hide VariantFields, Fields, Numbered;
    FieldsApart(t);
    FieldsApart(u);
    RunsSplitByLetter("spec", 's', t.specs, u.specs, TestsOn(t), TestsOn(u));
    var x, y := VariantFields(t.variants, 0), VariantFields(u.variants, 0);
    VariantsStart(t.variants, 0);
    VariantsStart(u.variants, 0);
    assert Numbered("test", t.tests) + x == Numbered("test", u.tests) + y;
    RunsSplitByLetter("test", 't', t.tests, u.tests, x, y);
    FieldsTellVariants(t.variants, u.variants, 0);
  }

  lemma {:induction false} CleanVariantFields(variants: seq<SyntaxVariant>, i: nat)
    requires i <= |variants| && forall k :: 0 <= k < |variants| ==> CleanVariant(variants[k])
    ensures Clean(VariantFields(variants, i))
    decreases |variants| - i
  {
    if i < |variants| {
      CleanVariantFields(variants, i + 1);
      assert Clean(OneVariant(variants[i], i));
    }
  }

  // Among tasks without separator bytes, what is folded determines everything: id,
  // instruction, specs, tests, and how specs nest inside variants.
  lemma StreamDeterminesTask(t: BenchTask, u: BenchTask)
    requires CleanTask(t) && CleanTask(u)
    ensures Stream(Fields(t)) == Stream(Fields(u)) <==> SameContent(t, u)
  {
    hide Stream;
    CleanVariantFields(t.variants, 0);
    CleanVariantFields(u.variants, 0);
    if Stream(Fields(t)) == Stream(Fields(u)) {
      FramingDecodes(Fields(t), Fields(u));
      FieldsTellTasks(t, u);
    }
  }

  // With a separator it does not: a spec that spells out the end of its own field
  // and the start of a test folds like that spec and that test.
  lemma SeparatorsConfuse(t: BenchTask, spec: string, test: string)
    ensures var two := t.(specs := [spec], tests := [test]);
      var one := t.(specs := [spec + [FIELD_END_CHAR] + "test0" + [NAME_END_CHAR] + test], tests := []);
      !SameContent(one, two) && DigestOf(one) == DigestOf(two)
  {
    hide Fold, Hex, VariantFields, Stream, Numbered, Encode;
    var joined := spec + [FIELD_END_CHAR] + "test0" + [NAME_END_CHAR] + test;
    var two, one := t.(specs := [spec], tests := [test]), t.(specs := [joined], tests := []);
    var head := [Field("id", t.id), Field("instruction", t.instruction)];
    var tail := VariantFields(t.variants, 0);
    NumberedOne("spec", spec);
    NumberedOne("spec", joined);
    NumberedOne("test", test);
    NumberedNone("test");
    var s0, s1, t0 := Field("spec0", spec), Field("spec0", joined), Field("test0", test);
    assert "spec" + "0" == "spec0" && "test" + "0" == "test0";
    assert Fields(two) == head + [s0, t0] + tail && Fields(one) == head + [s1] + tail;
    JoinedFold(spec, test);
    StreamAppends(head, [s0, t0]);
    StreamAppends(head + [s0, t0], tail);
    StreamAppends(head, [s1]);
    StreamAppends(head + [s1], tail);
  }

  lemma NumberedOne(prefix: Name, value: string)
    ensures Numbered(prefix, [value]) == [Field(prefix + "0", value)]
  {
    assert Decimal(0) == "0";
  }

  lemma NumberedNone(prefix: Name)
    ensures Numbered(prefix, []) == []
  {}

  lemma SeparatorsEncoded()
    ensures Encode([FIELD_END_CHAR]) == [FIELD_END] && Encode([NAME_END_CHAR]) == [NAME_END]
  {}

  lemma JoinedFold(spec: string, test: string)
    ensures Stream([Field("spec0", spec + [FIELD_END_CHAR] + "test0" + [NAME_END_CHAR] + test)])
      == Stream([Field("spec0", spec), Field("test0", test)])
  {
    hide Encode;
    var joined := spec + [FIELD_END_CHAR] + "test0" + [NAME_END_CHAR] + test;
    SeparatorsEncoded();
    EncodingAppends(spec, [FIELD_END_CHAR]);
    EncodingAppends(spec + [FIELD_END_CHAR], "test0");
    EncodingAppends(spec + [FIELD_END_CHAR] + "test0", [NAME_END_CHAR]);
    EncodingAppends(spec + [FIELD_END_CHAR] + "test0" + [NAME_END_CHAR], test);
    var s0, s1, t0 := Field("spec0", spec), Field("spec0", joined), Field("test0", test);
    assert [s0, t0][1..] == [t0] && [t0][1..] == [] && [s1][1..] == [];
    assert Stream([t0]) == Frame(t0);
    assert Stream([s0, t0]) == Frame(s0) + Stream([t0]);
    assert Stream([s1]) == Frame(s1);
    assert Frame(s1) == Frame(s0) + Frame(t0);
  }

  // ---- Pinned sets ----

  datatype PinnedTask = PinnedTask(digest: string, task: BenchTask)

  datatype DigestMismatch = DigestMismatch(taskId: string, recorded: string, actual: string)

  predicate PinHolds(p: PinnedTask) { p.digest == DigestOf(p.task) }

  function MismatchOf(p: PinnedTask): DigestMismatch {
    DigestMismatch(p.task.id, p.digest, DigestOf(p.task))
  }

  // The first stale pin, if any.
  function FirstMismatch(tasks: seq<PinnedTask>): (r: Option<DigestMismatch>)
    ensures r.None? <==> forall i :: 0 <= i < |tasks| ==> PinHolds(tasks[i])
  {
    if tasks == [] then None
    else if !PinHolds(tasks[0]) then Some(MismatchOf(tasks[0]))
    else
      assert tasks == [tasks[0]] + tasks[1..];
      FirstMismatch(tasks[1..])
  }

  method Pinned(tasks: seq<BenchTask>) returns (pinned: seq<PinnedTask>)
    ensures |pinned| == |tasks| && forall i :: 0 <= i < |tasks| ==> pinned[i].task == tasks[i]
    ensures FirstMismatch(pinned) == None
  {
    hide DigestOf;
    pinned := [];
    while |pinned| < |tasks|
      invariant |pinned| <= |tasks| && forall i :: 0 <= i < |pinned| ==>
        pinned[i].task == tasks[i] && PinHolds(pinned[i])
    {
      var digest := ComputeDigest(tasks[|pinned|]);
      pinned := pinned + [PinnedTask(digest, tasks[|pinned|])];
    }
  }

  method VerifyDigests(tasks: seq<PinnedTask>) returns (r: Option<DigestMismatch>)
    ensures r == FirstMismatch(tasks)
  {
    hide DigestOf;
    var i := 0;
    while i < |tasks|
      invariant i <= |tasks| && FirstMismatch(tasks) == FirstMismatch(tasks[i..])
    {
      assert tasks[i..][1..] == tasks[i + 1..];
      var actual := ComputeDigest(tasks[i].task);
      if actual != tasks[i].digest {
        return Some(DigestMismatch(tasks[i].task.id, tasks[i].digest, actual));
      }
      i := i + 1;
    }
    r := None;
  }

  // One string of a benchmark task edited, within four adjacent bytes.
  ghost predicate LocalEdit(t: BenchTask, u: BenchTask, j: nat, at: nat) {
    && |Fields(t)| == |Fields(u)| && j < |Fields(t)|
    && Fields(u) == Fields(t)[j := Field(Fields(t)[j].name, Fields(u)[j].value)]
    && EditedAt(Encode(Fields(t)[j].value), Encode(Fields(u)[j].value), at)
    && Fields(t)[j].value != Fields(u)[j].value
  }

  // A character replaced by another of the same width is such an edit.
  lemma ReplacedCharacter(v: string, i: nat, c: char) returns (at: nat)
    requires i < |v| && Width(c) == Width(v[i])
    ensures EditedAt(Encode(v), Encode(v[i := c]), at)
  {
    hide Encode;
    var w := v[i := c];
    EncodedAround(v, i);
    EncodedAround(w, i);
    assert w[..i] == v[..i] && w[i + 1..] == v[i + 1..];
    at := |Encode(v[..i])|;
  }

  lemma EncodedAround(v: string, i: nat)
    requires i < |v|
    ensures Encode(v) == Encode(v[..i]) + EncodeChar(v[i]) + Encode(v[i + 1..])
  {
    hide EncodeChar;
    var rest := v[i..];
    assert v == v[..i] + rest && rest[0] == v[i] && rest[1..] == v[i + 1..];
    EncodingAppends(v[..i], rest);
    var a, b, c := Encode(v[..i]), EncodeChar(v[i]), Encode(v[i + 1..]);
    assert a + (b + c) == a + b + c;
  }

  lemma EditInsideFrame(before: seq<Byte>, name: seq<Byte>, v: seq<Byte>, w: seq<Byte>, after: seq<Byte>, at: nat)
    requires EditedAt(v, w, at) && v != w
    ensures Fold(OFFSET, before + Framed(name, v) + after) != Fold(OFFSET, before + Framed(name, w) + after)
  {
    hide Fold;
    var head, tail := before + name + [NAME_END], [FIELD_END] + after;
    assert before + Framed(name, v) + after == head + v + tail;
    assert before + Framed(name, w) + after == head + w + tail;
    assert (head + v + tail)[|head|..|head| + |v|] == v && (head + w + tail)[|head|..|head| + |w|] == w;
    var a, b := head + v + tail, head + w + tail;
    forall k | 0 <= k < |a| && a[k] != b[k] ensures |head| + at <= k < |head| + at + 4 {
      assert |head| <= k < |head| + |v|;
      assert v[k - |head|] != w[k - |head|];
    }
    LocalEditChangesState(OFFSET, a, b, |head| + at);
  }

  // Such an edit always changes the digest.
  lemma LocalEditChangesDigest(t: BenchTask, u: BenchTask, j: nat, at: nat)
    requires LocalEdit(t, u, j, at)
    ensures DigestOf(t) != DigestOf(u)
  {
    hide Fold, Hex, Fields, Framed, Encode;
    var fs, gs := Fields(t), Fields(u);
    StreamAround(fs, j);
    StreamAround(gs, j);
    assert gs[..j] == fs[..j] && gs[j + 1..] == fs[j + 1..];
    if Encode(fs[j].value) == Encode(gs[j].value) { EncodingDecodes(fs[j].value, gs[j].value); }
    EditInsideFrame(Stream(fs[..j]), Encode(fs[j].name), Encode(fs[j].value), Encode(gs[j].value),
      Stream(fs[j + 1..]), at);
    if DigestOf(t) == DigestOf(u) { HexTellsStates(Fold(OFFSET, Stream(fs)), Fold(OFFSET, Stream(gs))); }
  }

  lemma StreamAround(fs: seq<Field>, j: nat)
    requires j < |fs|
    ensures Stream(fs) == Stream(fs[..j]) + Frame(fs[j]) + Stream(fs[j + 1..])
  {
    hide Frame;
    var rest := fs[j..];
    assert fs == fs[..j] + rest && rest[1..] == fs[j + 1..] && rest[0] == fs[j];
    StreamAppends(fs[..j], rest);
    var a, b, c := Stream(fs[..j]), Frame(fs[j]), Stream(fs[j + 1..]);
    assert Stream(rest) == b + c;
    assert a + (b + c) == a + b + c;
  }

  lemma {:induction false} OnlyMismatch(tasks: seq<PinnedTask>, i: nat)
    requires i < |tasks| && !PinHolds(tasks[i])
    requires forall k :: 0 <= k < |tasks| && k != i ==> PinHolds(tasks[k])
    ensures FirstMismatch(tasks) == Some(MismatchOf(tasks[i]))
  {
    hide PinHolds;
    if i > 0 { OnlyMismatch(tasks[1..], i - 1); }
  }

  // Editing one task of a verified set without pinning it again is reported, under
  // that task, exactly when the digest moved.
  lemma EditReportedExactly(tasks: seq<PinnedTask>, i: nat, u: BenchTask)
    requires i < |tasks| && FirstMismatch(tasks) == None
    ensures var edited := tasks[i := tasks[i].(task := u)];
      FirstMismatch(edited) ==
      if DigestOf(u) == DigestOf(tasks[i].task) then None
      else Some(DigestMismatch(u.id, DigestOf(tasks[i].task), DigestOf(u)))
  {
    hide DigestOf;
    var edited := tasks[i := tasks[i].(task := u)];
    assert PinHolds(tasks[i]);
    assert forall k :: 0 <= k < |tasks| && k != i ==> edited[k] == tasks[k];
    if !PinHolds(edited[i]) { OnlyMismatch(edited, i); }
  }

  // So no local edit goes unnoticed, while tags are not pinned at all.
  lemma LocalEditIsReported(tasks: seq<PinnedTask>, i: nat, u: BenchTask, j: nat, at: nat, tags: seq<string>)
    requires i < |tasks| && FirstMismatch(tasks) == None && LocalEdit(tasks[i].task, u, j, at)
    ensures FirstMismatch(tasks[i := tasks[i].(task := u)])
      == Some(DigestMismatch(u.id, DigestOf(tasks[i].task), DigestOf(u)))
    ensures FirstMismatch(tasks[i := tasks[i].(task := tasks[i].task.(tags := tags))]) == None
  {
    hide Fold, Hex, Stream, FirstMismatch, LocalEdit;
    LocalEditChangesDigest(tasks[i].task, u, j, at);
    EditReportedExactly(tasks, i, u);
    EditReportedExactly(tasks, i, tasks[i].task.(tags := tags));
  }

  // One character of one string replaced by another of the same encoded width is
  // always reported, whichever string of the benchmark task it is.
  lemma ReplacedCharacterIsReported(tasks: seq<PinnedTask>, i: nat, u: BenchTask, j: nat, k: nat, c: char)
    requires i < |tasks| && FirstMismatch(tasks) == None && j < |Fields(tasks[i].task)|
    requires var f := Fields(tasks[i].task)[j];
      && k < |f.value| && c != f.value[k] && Width(c) == Width(f.value[k])
      && Fields(u) == Fields(tasks[i].task)[j := Field(f.name, f.value[k := c])]
    ensures FirstMismatch(tasks[i := tasks[i].(task := u)])
      == Some(DigestMismatch(u.id, DigestOf(tasks[i].task), DigestOf(u)))
  {
    hide Fold, Hex, Stream, FirstMismatch, Fields, Width, Encode;
    var f := Fields(tasks[i].task)[j];
    var at := ReplacedCharacter(f.value, k, c);
    assert f.value[k := c][k] == c;
    LocalEditIsReported(tasks, i, u, j, at, []);
  }
}
