// What the model is shown of an evaluation: which program its generation becomes, which
// diagnostics are fed back, and where each is said to be.

module Feedbacks {
  import opened Evaluations
  import opened LineTables
  import opened QueryModel
  import opened WirePositions

  // ---- The assembled program ----

  // The text stands in the program from `at` on, behind an empty line.
  predicate StandsAt(program: string, spec: string, at: nat) {
    && 2 <= at <= at + |spec| <= |program| && program[at..at + |spec|] == spec
    && program[at - 2] == '\n' && program[at - 1] == '\n'
  }

  lemma SpecStands(program: string, spec: string)
    ensures program <= WithSpec(program, spec)
    ensures StandsAt(WithSpec(program, spec), spec, |WithSpec(program, spec)| - |spec|)
  {
    var whole := WithSpec(program, spec);
    var head := (if EndsLine(program) then program else program + "\n") + "\n";
    assert whole == head + spec;
    assert whole[|head|..] == spec;
  }

  // The generation stands first and every spec behind it, whole, behind an empty line
  // and after the specs before it.
  lemma {:induction false} EverySpecStands(generation: string, specs: seq<string>) returns (at: seq<nat>)
    ensures generation <= Assembled(generation, specs) && |at| == |specs|
    ensures forall k :: 0 <= k < |specs| ==>
      |generation| < at[k] && StandsAt(Assembled(generation, specs), specs[k], at[k])
    ensures forall j, k :: 0 <= j < k < |specs| ==> at[j] + |specs[j]| < at[k]
  {
    hide StandsAt;
    if specs == [] {
      at := [];
    } else {
      var init, last := specs[..|specs| - 1], specs[|specs| - 1];
      var front, whole := Assembled(generation, init), Assembled(generation, specs);
      at := EverySpecStands(generation, init);
      SpecStands(front, last);
      forall k | 0 <= k < |init| ensures StandsAt(whole, specs[k], at[k]) && at[k] + |specs[k]| <= |front| {
        StandsFurther(front, whole, specs[k], at[k]);
      }
      at := at + [|whole| - |last|];
    }
  }

  lemma StandsFurther(program: string, longer: string, spec: string, at: nat)
    requires StandsAt(program, spec, at) && program <= longer
    ensures StandsAt(longer, spec, at) && at + |spec| <= |program|
  {
    assert longer[at..at + |spec|] == program[at..at + |spec|];
  }

  // ---- Lines ----

  // Lines with the terminators that ended them.
  function Joined(lines: seq<string>, ends: seq<string>): string
    requires |ends| == |lines|
  {
    if lines == [] then "" else lines[0] + ends[0] + Joined(lines[1..], ends[1..])
  }

  predicate EndsReturn(line: string) { line != "" && line[|line| - 1] == '\r' }

  // A line ends in a newline, which a carriage return may precede; only the last may
  // end with the text.
  predicate IsEnd(line: string, end: string, last: bool) {
    && '\n' !in line
    && (end == "\n" || end == "\r\n" || (last && end == "" && line != ""))
    && (end == "\n" ==> !EndsReturn(line))
  }

  // The lines of a text are the text, cut behind every newline, without the terminators.
  lemma {:induction false} LinesAreTheText(s: string) returns (ends: seq<string>)
    ensures |ends| == |Lines(s)| && s == Joined(Lines(s), ends)
    ensures forall i :: 0 <= i < |ends| ==> IsEnd(Lines(s)[i], ends[i], i == |ends| - 1)
    decreases |s|
  {
    if s == "" {
      ends := [];
    } else {
      var e := LineEnd(s, 0);
      if e == |s| {
        ends := [""];
        assert Lines(s)[1..] == [] && ends[1..] == [];
      } else {
        var rest := s[e + 1..];
        var end := FirstLine(s, e);
        var more := LinesAreTheText(rest);
        ends := [end] + more;
        LinesGoOn(s, e);
        assert ends[1..] == more;
        FirstAndRest(s, e, end, Joined(Lines(rest), more));
      }
    }
  }

  lemma LinesGoOn(s: string, e: nat)
    requires s != "" && e == LineEnd(s, 0) < |s|
    ensures Lines(s) != [] && Lines(s)[0] == WithoutReturn(s[..e]) && Lines(s)[1..] == Lines(s[e + 1..])
  {}

  lemma FirstLine(s: string, e: nat) returns (end: string)
    requires e == LineEnd(s, 0) < |s|
    ensures WithoutReturn(s[..e]) + end == s[..e] + "\n"
    ensures IsEnd(WithoutReturn(s[..e]), end, false)
  {
    end := if EndsReturn(s[..e]) then "\r\n" else "\n";
    assert EndsReturn(s[..e]) ==> s[..e] == s[..e - 1] + "\r" && "\r" + "\n" == "\r\n";
  }

  lemma FirstAndRest(s: string, e: nat, end: string, rest: string)
    requires e == LineEnd(s, 0) < |s| && WithoutReturn(s[..e]) + end == s[..e] + "\n" && rest == s[e + 1..]
    ensures s == WithoutReturn(s[..e]) + end + rest
  {
    assert s == s[..e] + "\n" + s[e + 1..];
  }

  // ---- Where a diagnostic is ----

  lemma {:induction false} NewlinesAre(s: string)
    ensures Newlines(s) == |set k | 0 <= k < |s| && s[k] == '\n'|
  {
    var found := set k | 0 <= k < |s| && s[k] == '\n';
    if s == "" {
      assert found == {};
    } else {
      var n, init := |s| - 1, s[..|s| - 1];
      NewlinesAre(init);
      var before := set k | 0 <= k < |init| && init[k] == '\n';
      assert found == if s[n] == '\n' then before + {n} else before;
    }
  }

  lemma {:induction false} LineStartsBehindNewline(text: string, i: nat)
    requires i <= |text|
    ensures var b := LineStart(text, i); b > 0 ==> text[b - 1] == '\n'
  {
    if i > 0 && text[i - 1] != '\n' { LineStartsBehindNewline(text, i - 1); }
  }

  // One-based: as many lines up to it as newlines before it and one more, and as many
  // columns as characters of its line up to it and one more.
  predicate Placed(text: string, i: nat, line: nat, column: nat)
    requires i <= |text|
  {
    && line == |set k | 0 <= k < i && text[k] == '\n'| + 1
    && 1 <= column <= i + 1
    && (forall k :: i + 1 - column <= k < i ==> text[k] != '\n')
    && (column <= i ==> text[i - column] == '\n')
  }

  lemma PlaceIs(text: string, i: nat)
    requires i <= |text|
    ensures Placed(text, i, Newlines(text[..i]) + 1, i - LineStart(text, i) + 1)
  {
    NewlinesAre(text[..i]);
    LineStartsBehindNewline(text, i);
    assert (set k | 0 <= k < i && text[..i][k] == '\n') == set k | 0 <= k < i && text[k] == '\n';
  }

  // Shown as the model's own at this place, or on this line counted from behind the
  // generation's last.
  predicate ShownAt(f: Feedback, d: Diagnostic, line: nat, column: nat, behind: nat) {
    || (f == InGeneration(d, line, column) && behind == 0)
    || (f.InSpec? && f.d == d && f.line + behind == line)
  }

  // A diagnostic on a character of the program is shown with its line and column if it
  // counts as the model's own, and with its line behind the generation's last otherwise.
  lemma FeedbackPlaced(generation: string, specs: seq<string>, d: Diagnostic, i: nat)
    requires var text := Assembled(generation, specs);
      Storable(text) && i <= |text| && d.start == OffsetOf(text, i)
    ensures var text, n := Assembled(generation, specs), Clamped(|Lines(generation)|);
      var mine := i < |generation| || (i == |generation| && generation != "" && !EndsLine(generation));
      exists line: nat, column: nat :: (
        Placed(text, i, line, column) && ShownAt(RenderedOne(text, d, n), d, line, column, if mine then 0 else n))
  {
    hide Assembled, Bytes, OffsetOf, LineCount, Newlines, LocateOffset, Lines, Placed;
    var text, n := Assembled(generation, specs), Clamped(|Lines(generation)|);
    FeedbackAttributedExactly(generation, specs, d, i);
    LocatesIndex(text, i);
    PlaceIs(text, i);
    var line, column := Newlines(text[..i]) + 1, i - LineStart(text, i) + 1;
    assert Placed(text, i, line, column);
    assert ShownAt(RenderedOne(text, d, n), d, line, column, if RenderedOne(text, d, n).InGeneration? then 0 else n);
  }

  // ---- Which diagnostics are shown ----

  predicate IsShown(d: Diagnostic) { d.own && !d.severity.Note? }

  lemma ShownGoesOn(text: string, front: seq<Diagnostic>, last: Diagnostic, n: nat)
    ensures Rendered(text, Own(front + [last]), n)
      == Rendered(text, Own(front), n) + (if IsShown(last) then [RenderedOne(text, last, n)] else [])
  {
    hide RenderedOne;
    assert (front + [last])[..|front|] == front;
    assert (Own(front) + [last])[..|Own(front)|] == Own(front);
    assert Own(front + [last]) == if last.own then Own(front) + [last] else Own(front);
  }

  // The entries are those of the diagnostics at these places, in order.
  ghost predicate Lists(text: string, ds: seq<Diagnostic>, n: nat, shown: seq<Feedback>, at: seq<nat>) {
    && |at| == |shown| && (forall j, k :: 0 <= j < k < |at| ==> at[j] < at[k])
    && (forall k :: 0 <= k < |at| ==> at[k] < |ds| && shown[k] == RenderedOne(text, ds[at[k]], n))
  }

  lemma ListsGoOn(text: string, front: seq<Diagnostic>, last: Diagnostic, n: nat, shown: seq<Feedback>, at: seq<nat>)
    requires Lists(text, front, n, shown, at)
    ensures Lists(text, front + [last], n, shown, at)
    ensures Lists(text, front + [last], n, shown + [RenderedOne(text, last, n)], at + [|front|])
  {
    hide RenderedOne;
  }

  // The entries are the program's own errors and warnings, each once and in order.
  lemma {:induction false} ShownExactly(text: string, ds: seq<Diagnostic>, n: nat) returns (at: seq<nat>)
    ensures Lists(text, ds, n, Rendered(text, Own(ds), n), at)
    ensures forall i: nat :: i in at <==> i < |ds| && IsShown(ds[i])
  {
    hide RenderedOne, Rendered, Own, Lists;
    if ds == [] {
      at := [];
      NothingShown(text, n);
    } else {
      var front, last, k := ds[..|ds| - 1], ds[|ds| - 1], |ds| - 1;
      at := ShownExactly(text, front, n);
      assert ds == front + [last];
      ShownGoesOn(text, front, last, n);
      ListsGoOn(text, front, last, n, Rendered(text, Own(front), n), at);
      assert Rendered(text, Own(front), n) + [] == Rendered(text, Own(front), n);
      if IsShown(last) { at := at + [k]; }
    }
  }

  lemma NothingShown(text: string, n: nat)
    ensures Rendered(text, Own([]), n) == [] && Lists(text, [], n, [], [])
  {}

  lemma RenderedGoesOn(text: string, front: seq<Diagnostic>, last: Diagnostic, n: nat)
    ensures Rendered(text, front + [last], n)
      == Rendered(text, front, n) + (if last.severity.Note? then [] else [RenderedOne(text, last, n)])
  {
    hide RenderedOne;
    assert (front + [last])[..|front|] == front;
  }

  // Everything but notes, each once and in order.
  lemma {:induction false} RenderedExactly(text: string, ds: seq<Diagnostic>, n: nat) returns (at: seq<nat>)
    ensures Lists(text, ds, n, Rendered(text, ds, n), at)
    ensures forall i: nat :: i in at <==> i < |ds| && !ds[i].severity.Note?
  {
    hide RenderedOne;
    if ds == [] {
      at := [];
    } else {
      var front, last, k := ds[..|ds| - 1], ds[|ds| - 1], |ds| - 1;
      at := RenderedExactly(text, front, n);
      RenderedGoesOn(text, front, last, n);
      assert ds == front + [last];
      ListsGoOn(text, front, last, n, Rendered(text, front, n), at);
      hide Rendered, Lists;
      if !last.severity.Note? { at := at + [k]; }
    }
  }

  // What kept the specs of a checked program from running.
  ghost function Problems(c: Compiler, text: string, hasSpecs: bool, limits: nat): seq<Diagnostic> {
    var outcome := c.runSpecs(text, limits);
    if hasSpecs && (forall d :: d in c.check(text) ==> !d.severity.Error?) && outcome.NotChecked? then outcome.problems
    else []
  }

  // What an evaluation feeds back of a program that can be stored: its own errors and
  // warnings in order and, behind them, those that kept its specs from running.
  lemma EvaluationShows(c: Compiler, generation: string, specs: seq<string>, limits: nat)
      returns (at: seq<nat>, more: seq<nat>)
    requires Storable(Assembled(generation, specs))
    ensures var text, n := Assembled(generation, specs), Clamped(|Lines(generation)|);
      var ds, problems := c.check(text), Problems(c, text, specs != [], limits);
      var shown := Evaluate(c, generation, specs, limits).feedback;
      && |shown| == |at| + |more|
      && Lists(text, ds, n, shown[..|at|], at) && Lists(text, problems, n, shown[|at|..], more)
      && (forall i: nat :: i in at <==> i < |ds| && IsShown(ds[i]))
      && (forall i: nat :: i in more <==> i < |problems| && !problems[i].severity.Note?)
  {
    hide Assembled, Lines, Bytes, Rendered, ErrorLines, RenderedOne, CountUndefined, HasErrors, HasParseErrors;
    var text, n := Assembled(generation, specs), Clamped(|Lines(generation)|);
    var problems := Problems(c, text, specs != [], limits);
    ErrorsAre(c.check(text));
    at := ShownExactly(text, c.check(text), n);
    more := RenderedExactly(text, problems, n);
    NothingRendered(text, n);
    var own, rest := Rendered(text, Own(c.check(text)), n), Rendered(text, problems, n);
    var shown := Evaluate(c, generation, specs, limits).feedback;
    assert shown == own + rest;
    assert shown[..|own|] == own && shown[|own|..] == rest;
  }

  lemma NothingRendered(text: string, n: nat)
    ensures Rendered(text, [], n) == []
  {}

  lemma {:induction false} OwnAre(ds: seq<Diagnostic>, d: Diagnostic)
    ensures d in Own(ds) <==> d in ds && d.own
  {
    if ds != [] {
      OwnAre(ds[..|ds| - 1], d);
      assert ds == ds[..|ds| - 1] + [ds[|ds| - 1]];
    }
  }

  // The lines in error are those on which the program's own errors stand, a library's
  // not counted.
  lemma ErrorLinesExactly(c: Compiler, generation: string, specs: seq<string>, limits: nat, line: nat)
    requires Storable(Assembled(generation, specs))
    ensures var text, n := Assembled(generation, specs), Clamped(|Lines(generation)|);
      line in Evaluate(c, generation, specs, limits).errorLines <==>
        exists d :: d in c.check(text) && d.own && ErrorOnLine(text, d, n, line)
  {
    hide Assembled, Lines, Bytes, Rendered, ErrorOnLine, CountUndefined, HasErrors, HasParseErrors, ErrorLines;
    var text, n := Assembled(generation, specs), Clamped(|Lines(generation)|);
    var own := Own(c.check(text));
    assert IsErrorLines(ErrorLines(text, own, n), text, own, n);
    forall d ensures d in own <==> d in c.check(text) && d.own { OwnAre(c.check(text), d); }
    if d :| d in c.check(text) && d.own && ErrorOnLine(text, d, n, line) {
      var i :| 0 <= i < |own| && own[i] == d;
    }
  }
}
