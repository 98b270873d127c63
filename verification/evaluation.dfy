// Evaluating one generated program: assembling it with its specs, reading the
// stages off the compiler's diagnostics, and saying which lines are the model's.

module Evaluations {
  import opened LineTables
  import opened QueryModel
  import opened WirePositions

  const MAX_U32: nat := 0xFFFF_FFFF

  function Clamped(n: nat): nat { if n <= MAX_U32 then n else MAX_U32 }

  datatype Severity = Error | Warning | Note

  datatype Namespace = Lexical | Parser | Resolution | Type | Ownership | Mir | Specification | Codegen

  // `own` says the primary span lies in the evaluated source rather than in a
  // library module loaded beside it; `start` is the span's byte offset.
  datatype Diagnostic = Diagnostic(severity: Severity, namespace: Namespace, number: nat, own: bool, start: nat)

  datatype RunOutcome = Ran(passed: bool) | NotChecked(problems: seq<Diagnostic>)

  // The compiler the harness drives: the front end, and the spec runner under its
  // sandbox limits.
  datatype Compiler = Compiler(check: string -> seq<Diagnostic>, runSpecs: (string, nat) -> RunOutcome)

  // One entry of repair feedback. A diagnostic past the generation is attributed to
  // the spec appended to it.
  datatype Feedback =
    | Unplaced(d: Diagnostic)
    | InGeneration(d: Diagnostic, line: nat, column: nat)
    | InSpec(d: Diagnostic, line: nat)
    | NotInterned

  datatype Evaluation = Evaluation(
    parsed: bool,
    checked: bool,
    specsPassed: bool,
    inventedSymbols: nat,
    feedback: seq<Feedback>,
    errorLines: set<nat>)
  {
    predicate IsSuccess() { parsed && checked && specsPassed }
  }

  // ---- Assembling ----

  function EndsLine(s: string): bool { s != "" && s[|s| - 1] == '\n' }

  function WithSpec(program: string, spec: string): string {
    (if EndsLine(program) then program else program + "\n") + "\n" + spec
  }

  function Assembled(generation: string, specs: seq<string>): string {
    if specs == [] then generation else WithSpec(Assembled(generation, specs[..|specs| - 1]), specs[|specs| - 1])
  }

  method Assemble(generation: string, specs: seq<string>) returns (program: string)
    ensures program == Assembled(generation, specs)
  {
    program := generation;
    for i := 0 to |specs|
      invariant program == Assembled(generation, specs[..i])
    {
      if !EndsLine(program) { program := program + "\n"; }
      program := program + "\n";
      program := program + specs[i];
      assert specs[..i + 1][..i] == specs[..i];
    }
    assert specs[..|specs|] == specs;
  }

  // ---- Lines ----

  function WithoutReturn(line: string): string {
    if line != "" && line[|line| - 1] == '\r' then line[..|line| - 1] else line
  }

  // The lines of a text, their terminators dropped; a last line without one counts.
  function Lines(s: string): (lines: seq<string>)
    decreases |s|
  {
    if s == "" then []
    else
      var e := LineEnd(s, 0);
      if e == |s| then [s] else [WithoutReturn(s[..e])] + Lines(s[e + 1..])
  }

  function LineCount(s: string): nat { Newlines(s) + (if s == "" || EndsLine(s) then 0 else 1) }

  lemma {:induction false} NewlinesAppend(s: string, t: string)
    ensures Newlines(s + t) == Newlines(s) + Newlines(t)
    decreases |t|
  {
    if t == "" {
      assert s + t == s;
    } else {
      assert (s + t)[..|s + t| - 1] == s + t[..|t| - 1];
      NewlinesAppend(s, t[..|t| - 1]);
    }
  }

  lemma {:induction false} LinesCounted(s: string)
    ensures |Lines(s)| == LineCount(s)
    decreases |s|
  {
    if s != "" {
      var e := LineEnd(s, 0);
      NoNewlinesBetween(s, 0, e);
      assert s[..0] == "" && s[..|s|] == s;
      if e < |s| {
        LinesCounted(s[e + 1..]);
        assert s == s[..e] + "\n" + s[e + 1..];
        NewlinesAppend(s[..e] + "\n", s[e + 1..]);
        NewlinesAppend(s[..e], "\n");
        assert Newlines("\n") == 1;
        assert EndsLine(s) <==> (s[e + 1..] == "" || EndsLine(s[e + 1..]));
      }
    }
  }

  lemma {:induction false} AssembledStarts(generation: string, specs: seq<string>)
    ensures generation <= Assembled(generation, specs)
    ensures specs != [] ==>
      generation + (if EndsLine(generation) then "\n" else "\n\n") <= Assembled(generation, specs)
  {
    if specs != [] { AssembledStarts(generation, specs[..|specs| - 1]); }
  }

  // Which part of the program a scalar belongs to, told by its line alone: all of
  // the generation counts as the model's, and so does the end of a generation
  // without a final newline. The very end of a newline-terminated generation is
  // taken for the appended spec.
  lemma AttributedExactly(generation: string, specs: seq<string>, i: nat)
    requires i <= |Assembled(generation, specs)|
    ensures Newlines(Assembled(generation, specs)[..i]) < LineCount(generation)
      <==> i < |generation| || (i == |generation| && generation != "" && !EndsLine(generation))
  {
    var g, text := generation, Assembled(generation, specs);
    AssembledStarts(g, specs);
    assert text[..|g|] == g;
    if i <= |g| {
      assert text[..i] == g[..i];
      assert g == g[..i] + g[i..];
      NewlinesAppend(g[..i], g[i..]);
      assert i < |g| && EndsLine(g) ==> g[i..][|g[i..]| - 1] == '\n';
    } else {
      var head := g + "\n";
      assert text[..|head|] == head;
      NewlinesAppend(g, "\n");
      assert Newlines("\n") == 1;
      assert text[..i] == head + text[|head|..i];
      NewlinesAppend(head, text[|head|..i]);
    }
  }

  // ---- Reading the diagnostics ----

  predicate HasErrors(ds: seq<Diagnostic>) { exists i :: 0 <= i < |ds| && ds[i].severity.Error? }

  predicate HasParseErrors(ds: seq<Diagnostic>) {
    exists i :: 0 <= i < |ds| && ds[i].severity.Error? && (ds[i].namespace.Lexical? || ds[i].namespace.Parser?)
  }

  predicate UndefinedName(d: Diagnostic) { d.severity.Error? && d.namespace.Resolution? && d.number == 2 }

  function CountUndefined(ds: seq<Diagnostic>): nat {
    if ds == [] then 0 else CountUndefined(ds[..|ds| - 1]) + (if UndefinedName(ds[|ds| - 1]) then 1 else 0)
  }

  function Own(ds: seq<Diagnostic>): seq<Diagnostic> {
    if ds == [] then [] else Own(ds[..|ds| - 1]) + (if ds[|ds| - 1].own then [ds[|ds| - 1]] else [])
  }

  // The one-based line of an error of the generation, if it is one.
  ghost predicate ErrorOnLine(text: string, d: Diagnostic, generationLines: nat, line: nat) {
    var located := LocateOffset(text, d.start);
    d.severity.Error? && located.At? && line == Clamped(located.at.line + 1) && line <= generationLines
  }

  ghost predicate IsErrorLines(lines: set<nat>, text: string, ds: seq<Diagnostic>, generationLines: nat) {
    forall line :: line in lines <==> exists i :: 0 <= i < |ds| && ErrorOnLine(text, ds[i], generationLines, line)
  }

  ghost function ErrorLines(text: string, ds: seq<Diagnostic>, generationLines: nat): (lines: set<nat>)
    ensures IsErrorLines(lines, text, ds, generationLines)
  {
    if ds == [] then {}
    else
      var init, d := ds[..|ds| - 1], ds[|ds| - 1];
      assert ds == init + [d];
      ErrorLines(text, init, generationLines)
      + set line | 0 <= line <= generationLines && ErrorOnLine(text, d, generationLines, line)
  }

  ghost function RenderedOne(text: string, d: Diagnostic, generationLines: nat): Feedback {
    var located := LocateOffset(text, d.start);
    if !located.At? then Unplaced(d)
    else if located.at.line < generationLines then InGeneration(d, located.at.line + 1, located.at.column + 1)
    else InSpec(d, located.at.line + 1 - generationLines)
  }

  ghost function Rendered(text: string, ds: seq<Diagnostic>, generationLines: nat): seq<Feedback> {
    if ds == [] then []
    else
      var d := ds[|ds| - 1];
      Rendered(text, ds[..|ds| - 1], generationLines)
      + (if d.severity.Note? then [] else [RenderedOne(text, d, generationLines)])
  }

  method ErrorLinesOf(text: string, starts: seq<nat>, ds: seq<Diagnostic>, generationLines: nat)
      returns (lines: set<nat>)
    requires starts == LineStarts(text)
    ensures lines == ErrorLines(text, ds, generationLines)
  {
    hide LocateOffset, LineStarts;
    lines := {};
    for i := 0 to |ds|
      invariant lines == ErrorLines(text, ds[..i], generationLines)
    {
      assert ds[..i + 1][..i] == ds[..i];
      var d := ds[i];
      if d.severity.Error? {
        var located := LineColOf(text, starts, d.start);
        if located.At? && Clamped(located.at.line + 1) <= generationLines {
          lines := lines + {Clamped(located.at.line + 1)};
        }
      }
    }
    assert ds[..|ds|] == ds;
  }

  method RenderAll(text: string, starts: seq<nat>, ds: seq<Diagnostic>, generationLines: nat)
      returns (entries: seq<Feedback>)
    requires starts == LineStarts(text)
    ensures entries == Rendered(text, ds, generationLines)
  {
    hide LocateOffset, LineStarts;
    entries := [];
    for i := 0 to |ds|
      invariant entries == Rendered(text, ds[..i], generationLines)
    {
      assert ds[..i + 1][..i] == ds[..i];
      var d := ds[i];
      if !d.severity.Note? {
        var located := LineColOf(text, starts, d.start);
        entries := entries + [
          if !located.At? then Unplaced(d)
          else if located.at.line < generationLines then InGeneration(d, located.at.line + 1, located.at.column + 1)
          else InSpec(d, located.at.line + 1 - generationLines)];
      }
    }
    assert ds[..|ds|] == ds;
  }

  // ---- Evaluating ----

  ghost function Judged(c: Compiler, text: string, generationLines: nat, hasSpecs: bool, limits: nat): Evaluation {
    var ds := c.check(text);
    var checked := !HasErrors(ds);
    var feedback := Rendered(text, Own(ds), generationLines);
    var outcome := c.runSpecs(text, limits);
    var runs := checked && hasSpecs;
    Evaluation(
      !HasParseErrors(ds),
      checked,
      if runs then outcome.Ran? && outcome.passed else checked,
      Clamped(CountUndefined(ds)),
      feedback + (if runs && outcome.NotChecked? then Rendered(text, outcome.problems, generationLines) else []),
      ErrorLines(text, Own(ds), generationLines))
  }

  // A text over the 32-bit offset space cannot be stored.
  predicate Storable(text: string) { Bytes(text) <= MAX_OFFSET }

  const UNSTORABLE := Evaluation(false, false, false, 0, [NotInterned], {})

  ghost function Evaluate(c: Compiler, generation: string, specs: seq<string>, limits: nat): Evaluation {
    var text := Assembled(generation, specs);
    if !Storable(text) then UNSTORABLE
    else Judged(c, text, Clamped(|Lines(generation)|), specs != [], limits)
  }

  // What the verdicts are, read off what the compiler reports on the assembled text.
  ghost predicate Verdicts(c: Compiler, text: string, hasSpecs: bool, limits: nat, e: Evaluation) {
    if Bytes(text) > 0xFFFF_FFFF then
      !e.parsed && !e.checked && !e.specsPassed && e.inventedSymbols == 0 && e.feedback == [NotInterned]
    else
      var ds := c.check(text);
      && (e.parsed <==> forall d :: d in ds && d.severity.Error? ==> !d.namespace.Lexical? && !d.namespace.Parser?)
      && (e.checked <==> forall d :: d in ds ==> !d.severity.Error?)
      && (e.specsPassed <==> e.checked && (hasSpecs ==> c.runSpecs(text, limits) == Ran(true)))
      && e.inventedSymbols == Clamped(|set i | 0 <= i < |ds| && IsInvented(ds[i])|)
  }

  // An error of the resolver with code 2: a name that nothing declares.
  predicate IsInvented(d: Diagnostic) {
    d.severity == Severity.Error && d.namespace == Resolution && d.number == 2
  }

  lemma {:induction false} InventedAreCounted(ds: seq<Diagnostic>)
    ensures CountUndefined(ds) == |set i | 0 <= i < |ds| && IsInvented(ds[i])|
  {
    var found := set i | 0 <= i < |ds| && IsInvented(ds[i]);
    if ds == [] {
      assert found == {};
    } else {
      var n, init := |ds| - 1, ds[..|ds| - 1];
      InventedAreCounted(init);
      var before := set i | 0 <= i < |init| && IsInvented(init[i]);
      assert found == if IsInvented(ds[n]) then before + {n} else before;
    }
  }

  lemma ErrorsAre(ds: seq<Diagnostic>)
    ensures HasErrors(ds) <==> exists d :: d in ds && d.severity.Error?
    ensures HasParseErrors(ds) <==>
      exists d :: d in ds && d.severity.Error? && (d.namespace.Lexical? || d.namespace.Parser?)
  {
    if d :| d in ds && d.severity.Error? {
      var i :| 0 <= i < |ds| && ds[i] == d;
    }
    if d :| d in ds && d.severity.Error? && (d.namespace.Lexical? || d.namespace.Parser?) {
      var i :| 0 <= i < |ds| && ds[i] == d;
    }
  }

  // The stages as the compiler's own report has them: a program parsed when no error is
  // lexical or syntactic, checked when there is none, passed its specs when it checked
  // and they ran and passed, and invented as many names as were undefined.
  lemma EvaluationSays(c: Compiler, generation: string, specs: seq<string>, limits: nat)
    ensures Verdicts(c, Assembled(generation, specs), specs != [], limits, Evaluate(c, generation, specs, limits))
  {
    hide Bytes, Lines, Assembled, ErrorLines, Rendered, Own, HasErrors, HasParseErrors, CountUndefined;
    var ds := c.check(Assembled(generation, specs));
    assert MAX_OFFSET == 0xFFFF_FFFF;
    InventedAreCounted(ds);
    ErrorsAre(ds);
  }

  method EvaluateProgram(c: Compiler, generation: string, specs: seq<string>, limits: nat) returns (e: Evaluation)
    ensures e == Evaluate(c, generation, specs, limits)
    ensures Verdicts(c, Assembled(generation, specs), specs != [], limits, e)
  {
    EvaluationSays(c, generation, specs, limits);
    hide Verdicts;
    hide Bytes, Lines, Assembled, LineStarts, ErrorLines, Rendered, Own, HasErrors, HasParseErrors, CountUndefined;
    var text := Assemble(generation, specs);
    var generationLines := Clamped(|Lines(generation)|);
    if !Storable(text) { return UNSTORABLE; }
    var starts := BuildLineStarts(text);
    var ds := c.check(text);
    var checked := !HasErrors(ds);
    var errorLines := ErrorLinesOf(text, starts, Own(ds), generationLines);
    var feedback := RenderAll(text, starts, Own(ds), generationLines);
    var specsPassed := checked;
    if checked && specs != [] {
      match c.runSpecs(text, limits) {
        case Ran(passed) => specsPassed := passed;
        case NotChecked(problems) =>
          var more := RenderAll(text, starts, problems, generationLines);
          feedback := feedback + more;
          specsPassed := false;
      }
    }
    e := Evaluation(!HasParseErrors(ds), checked, specsPassed, Clamped(CountUndefined(ds)), feedback, errorLines);
  }

  ghost function TestsPass(c: Compiler, generation: string, tests: seq<string>, limits: nat): bool {
    tests == [] || Evaluate(c, generation, tests, limits).specsPassed
  }

  // ---- What an evaluation says ----

  lemma {:induction false} UndefinedIsError(ds: seq<Diagnostic>)
    requires CountUndefined(ds) > 0
    ensures HasErrors(ds)
  {
    var d := ds[|ds| - 1];
    assert ds[|ds| - 1] == d;
    if !UndefinedName(d) {
      UndefinedIsError(ds[..|ds| - 1]);
      var i :| 0 <= i < |ds| - 1 && ds[..|ds| - 1][i].severity.Error?;
      assert ds[i].severity.Error?;
    }
  }

  lemma {:induction false} OwnAreReported(ds: seq<Diagnostic>)
    ensures forall d :: d in Own(ds) ==> d in ds
  {
    if ds != [] { OwnAreReported(ds[..|ds| - 1]); }
  }

  // The stages nest, and a program that checks invented nothing and has no line in
  // error; the lines in error are lines of the generation.
  lemma StagesNest(c: Compiler, generation: string, specs: seq<string>, limits: nat)
    ensures var e := Evaluate(c, generation, specs, limits);
      && (e.specsPassed ==> e.checked)
      && (e.checked ==> e.parsed && e.inventedSymbols == 0 && e.errorLines == {})
      && (forall line :: line in e.errorLines ==> 1 <= line <= |Lines(generation)|)
  {
    hide Lines, Assembled, Bytes, Rendered;
    var text := Assembled(generation, specs);
    var ds, n := c.check(text), Clamped(|Lines(generation)|);
    if CountUndefined(ds) > 0 { UndefinedIsError(ds); }
    OwnAreReported(ds);
    var lines := ErrorLines(text, Own(ds), n);
    forall line | line in lines ensures 1 <= line <= n && HasErrors(ds) {
      var i :| 0 <= i < |Own(ds)| && ErrorOnLine(text, Own(ds)[i], n, line);
      assert Own(ds)[i] in ds;
    }
  }

  // ---- Held-out tests ----

  // Tests that pass say of the program with the tests appended that it checks, hence
  // parses and invents nothing, and that its every spec passes; without tests
  // nothing is asked.
  method EvaluateTests(c: Compiler, generation: string, tests: seq<string>, limits: nat) returns (passed: bool)
    ensures tests == [] ==> passed
    ensures tests != [] ==>
      var e := Evaluate(c, generation, tests, limits);
      (passed <==> e.IsSuccess()) && (passed ==> e.inventedSymbols == 0 && e.errorLines == {})
    ensures passed == TestsPass(c, generation, tests, limits)
  {
    hide Evaluate;
    if tests == [] { return true; }
    var e := EvaluateProgram(c, generation, tests, limits);
    StagesNest(c, generation, tests, limits);
    passed := e.specsPassed;
  }

  lemma {:induction false} LinesWithin(s: string)
    ensures Newlines(s) <= |s| && LineCount(s) <= |s|
  {
    if s != "" { LinesWithin(s[..|s| - 1]); }
  }

  // A diagnostic placed on a scalar of the program is shown to the model as its own
  // exactly when it lies in the generation, or at the end of one whose last line
  // has no newline; and, short of a text of the greatest length there is, an error
  // counts among its lines just then.
  lemma FeedbackAttributedExactly(generation: string, specs: seq<string>, d: Diagnostic, i: nat)
    requires var text := Assembled(generation, specs);
      Storable(text) && i <= |text| && d.start == OffsetOf(text, i)
    ensures var text, n := Assembled(generation, specs), Clamped(|Lines(generation)|);
      var mine := i < |generation| || (i == |generation| && generation != "" && !EndsLine(generation));
      && RenderedOne(text, d, n).InGeneration? == mine
      && (Bytes(text) < MAX_OFFSET ==>
            ((exists line :: ErrorOnLine(text, d, n, line)) <==> d.severity.Error? && mine))
  {
    hide Assembled, Bytes, OffsetOf, LineCount, Newlines, LocateOffset, Lines;
    var text := Assembled(generation, specs);
    AttributedExactly(generation, specs, i);
    LocatesIndex(text, i);
    LinesCounted(generation);
    LinesWithin(generation);
    AssembledStarts(generation, specs);
    OffsetInText(text, |text|);
    OffsetAtEnds(text);
    var n := Clamped(|Lines(generation)|);
    assert n == LineCount(generation);
    LinesWithin(text[..i]);
    OffsetInText(text, i);
    var line := Newlines(text[..i]) + 1;
    assert line <= n ==> ErrorOnLine(text, d, n, line) == d.severity.Error?;
  }
}
