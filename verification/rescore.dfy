// What holds of every run of the loop, and why compiling a recorded run again
// reproduces it.

module Rescoring {
  import opened BenchTasks
  import opened Evaluations
  import opened Harnesses
  import opened QueryModel

  // ---- Every run ----

  // The attempt a turn is compared with: the turn before it.
  ghost function Before(c: Compiler, limits: nat, specs: seq<string>, turns: seq<TurnRecord>, i: nat): Option<Attempt>
    requires i <= |turns|
  {
    if i == 0 then None
    else Some(Attempt(turns[i - 1].output, Evaluate(c, turns[i - 1].output, specs, limits)))
  }

  // A turn as compiling its output now would record it.
  ghost function Rejudged(c: Compiler, limits: nat, specs: seq<string>, clock: nat -> nat, turns: seq<TurnRecord>,
        i: nat): TurnRecord
    requires i < |turns|
  {
    Judge(turns[i], Evaluate(c, turns[i].output, specs, limits), clock(i),
          EditSignal(Before(c, limits, specs, turns, i), turns[i].output))
  }

  predicate OnlyLastPasses(turns: seq<TurnRecord>) {
    forall i :: 0 <= i < |turns| - 1 ==> !turns[i].Passed()
  }

  // A record of what the model answered to the prompt of the turn, that says of it what
  // compiling it says.
  ghost predicate GenuineTurn(s: Setup, turn: nat, previous: Option<Attempt>, t: TurnRecord) {
    && t.turn == turn && t.prompt == PromptFor(s, previous)
    && s.model.generate(turn, t.prompt) == Generated(t.output, t.tokens)
    && t == Judge(t, Attempted(s, t.output).evaluation, s.clock(turn), EditSignal(previous, t.output))
  }

  // Turns recorded from turn `from` on, after `previous`.
  ghost predicate Genuine(s: Setup, from: nat, previous: Option<Attempt>, turns: seq<TurnRecord>) {
    forall i :: 0 <= i < |turns| ==> GenuineTurn(s, from + i, Preceding(s, previous, turns, i), turns[i])
  }

  ghost function Preceding(s: Setup, previous: Option<Attempt>, turns: seq<TurnRecord>, i: nat): Option<Attempt>
    requires i <= |turns|
  {
    if i == 0 then previous else Some(Attempted(s, turns[i - 1].output))
  }

  predicate NonePasses(turns: seq<TurnRecord>) { forall i :: 0 <= i < |turns| ==> !turns[i].Passed() }

  // Genuine turns within the budget, of which only the last may pass, and which
  // end because it did, because the model failed, or because the budget is spent.
  ghost predicate GenuineEnd(s: Setup, from: nat, previous: Option<Attempt>, o: RunEnd) {
    && |o.turns| <= s.maxRepairs + 1 - from
    && Genuine(s, from, previous, o.turns)
    && OnlyLastPasses(o.turns)
    && o.last == Preceding(s, previous, o.turns, |o.turns|)
    && (o.error.Some? ==> |o.turns| < s.maxRepairs + 1 - from && NonePasses(o.turns))
    && (o.error.Some? ==> s.model.generate(from + |o.turns|, PromptFor(s, o.last)) == Failed(o.error.value))
    && (o.error.None? && |o.turns| < s.maxRepairs + 1 - from ==> o.turns != [] && o.turns[|o.turns| - 1].Passed())
  }

  lemma {:induction false} SessionIsGenuine(s: Setup, from: nat, previous: Option<Attempt>)
    requires from <= s.maxRepairs + 1
    ensures GenuineEnd(s, from, previous, Session(s, from, previous))
    decreases s.maxRepairs + 1 - from
  {
    hide Session, EditSignal, PromptFor, Extended, Recorded, Attempted, GenuineEnd;
    SessionStep(s, from, previous);
    EndsHere(s, from, previous);
    if from <= s.maxRepairs {
      var answer := s.model.generate(from, PromptFor(s, previous));
      if answer.Generated? {
        var now := Attempted(s, answer.source);
        var t := Recorded(from, PromptFor(s, previous), answer.source, answer.tokens, now.evaluation, s.clock(from),
                          EditSignal(previous, answer.source));
        RecordedIsGenuine(s, from, previous, answer.source, answer.tokens);
        if now.evaluation.IsSuccess() {
          EndsPassing(s, from, previous, t);
        } else {
          SessionIsGenuine(s, from + 1, Some(now));
          OneMoreTurn(s, from, previous, t, Session(s, from + 1, Some(now)));
        }
      }
    }
  }

  lemma EndsHere(s: Setup, from: nat, previous: Option<Attempt>)
    ensures from == s.maxRepairs + 1 ==> GenuineEnd(s, from, previous, RunEnd([], previous, None))
    ensures forall reason ::
      from <= s.maxRepairs && s.model.generate(from, PromptFor(s, previous)) == Failed(reason) ==>
        GenuineEnd(s, from, previous, RunEnd([], previous, Some(reason)))
  {}

  lemma EndsPassing(s: Setup, from: nat, previous: Option<Attempt>, t: TurnRecord)
    requires from <= s.maxRepairs && Genuine(s, from, previous, [t]) && t.Passed()
    ensures GenuineEnd(s, from, previous, RunEnd([t], Some(Attempted(s, t.output)), None))
  {
    hide Genuine, Attempted;
  }

  lemma RecordedIsGenuine(s: Setup, from: nat, previous: Option<Attempt>, source: string, tokens: nat)
    requires s.model.generate(from, PromptFor(s, previous)) == Generated(source, tokens)
    ensures var now := Attempted(s, source);
      var t := Recorded(from, PromptFor(s, previous), source, tokens, now.evaluation, s.clock(from),
        EditSignal(previous, source));
      Genuine(s, from, previous, [t]) && t.output == source && t.Passed() == now.evaluation.IsSuccess()
  {
    hide Evaluate, EditSignal, PromptFor, SpecsFor;
  }

  lemma OneMoreTurn(s: Setup, from: nat, previous: Option<Attempt>, t: TurnRecord, rest: RunEnd)
    requires from <= s.maxRepairs && Genuine(s, from, previous, [t]) && !t.Passed()
    requires GenuineEnd(s, from + 1, Some(Attempted(s, t.output)), rest)
    ensures GenuineEnd(s, from, previous, Extended([t], rest))
  {
    hide Genuine, Attempted, Preceding;
    PrependedIsGenuine(s, from, previous, t, rest.turns);
    var turns := [t] + rest.turns;
    assert forall i :: 0 < i < |turns| ==> turns[i] == rest.turns[i - 1];
  }

  lemma PrependedIsGenuine(s: Setup, from: nat, previous: Option<Attempt>, t: TurnRecord, rest: seq<TurnRecord>)
    requires Genuine(s, from, previous, [t]) && Genuine(s, from + 1, Some(Attempted(s, t.output)), rest)
    ensures Genuine(s, from, previous, [t] + rest)
    ensures Preceding(s, previous, [t] + rest, |rest| + 1) == Preceding(s, Some(Attempted(s, t.output)), rest, |rest|)
  {
    hide GenuineTurn, Attempted;
    var turns, now := [t] + rest, Some(Attempted(s, t.output));
    assert turns[0] == [t][0] == t;
    forall i | 0 < i < |turns| ensures GenuineTurn(s, from + i, Preceding(s, previous, turns, i), turns[i]) {
      assert turns[i] == rest[i - 1] && Preceding(s, previous, turns, i) == Preceding(s, now, rest, i - 1);
      assert GenuineTurn(s, from + 1 + (i - 1), Preceding(s, now, rest, i - 1), rest[i - 1]);
    }
    assert GenuineTurn(s, from + 0, Preceding(s, previous, [t], 0), [t][0]);
  }

  lemma WhenOnlyLastPasses(run: TaskRun, n: nat)
    requires OnlyLastPasses(run.turns)
    ensures run.EventuallySucceeded() <==> run.turns != [] && run.turns[|run.turns| - 1].Passed()
    ensures run.PassedWithinRepairs(n) <==> run.EventuallySucceeded() && |run.turns| <= n + 1
  {
    if run.turns != [] && run.turns[|run.turns| - 1].Passed() {
      assert run.EventuallySucceeded();
    }
  }

  lemma TurnsAreNumbered(s: Setup, from: nat, previous: Option<Attempt>, turns: seq<TurnRecord>)
    requires Genuine(s, from, previous, turns)
    ensures forall i :: 0 <= i < |turns| ==> turns[i].turn == from + i
  {
    hide Evaluate, EditSignal, Judge, SpecsFor;
  }

  // A run numbers its turns from zero within the budget, stops at the first that
  // passes, and ends for one of three reasons.
  lemma EveryRun(s: Setup)
    ensures var run := RunOf(s);
      && run.taskId == s.task.id && run.variant == (if s.variant.None? then "default" else s.variant.value.labelText)
      && |run.turns| <= s.maxRepairs + 1
      && (forall i :: 0 <= i < |run.turns| ==> run.turns[i].turn == i)
      && (run.EventuallySucceeded() <==> run.turns != [] && run.turns[|run.turns| - 1].Passed())
      && (run.generationError.Some? ==> !run.EventuallySucceeded() && |run.turns| <= s.maxRepairs)
      && (run.generationError.None? && !run.EventuallySucceeded() ==> |run.turns| == s.maxRepairs + 1)
  {
    hide Session, Genuine, Scored, Preceding;
    SessionIsGenuine(s, 0, None);
    TurnsAreNumbered(s, 0, None, RunOf(s).turns);
    WhenOnlyLastPasses(RunOf(s), 0);
  }

  // Passing within `n` repairs is a matter of how long the run was.
  lemma PassedWithinExactly(s: Setup, n: nat)
    ensures RunOf(s).PassedWithinRepairs(n) <==> RunOf(s).EventuallySucceeded() && |RunOf(s).turns| <= n + 1
  {
    hide Session, Genuine, Scored, Preceding;
    SessionIsGenuine(s, 0, None);
    WhenOnlyLastPasses(RunOf(s), n);
  }

  // What a turn's prompt says: the task's instruction, the variant asked for with its
  // note if it has one, and from the second turn on the attempt before it with what the
  // compiler said of it.
  ghost predicate PromptSays(s: Setup, p: Prompt, before: Option<string>) {
    && p.instruction == s.task.instruction
    && (s.variant.None? ==> p.variant == None && p.note == None)
    && (s.variant.Some? ==> p.variant == Some(s.variant.value.labelText))
    && (s.variant.Some? ==> p.note == if s.variant.value.note == "" then None else Some(s.variant.value.note))
    && p.previous == before
    && p.feedback == if before.None? then [] else Evaluate(s.compiler, before.value, ScoredBy(s), s.limits).feedback
  }

  // The specs a run is scored by: the variant's own if it has any, else the task's.
  function ScoredBy(s: Setup): seq<string> {
    if s.variant.Some? && s.variant.value.specs != [] then s.variant.value.specs else s.task.specs
  }

  // The edit of a repair is unrelated exactly when it changes a line that the compiler
  // had not put an error on.
  ghost predicate SignalSays(s: Setup, t: TurnRecord, before: Option<string>) {
    if before.None? then t.unrelatedEdit == None
    else
      var flagged := Evaluate(s.compiler, before.value, ScoredBy(s), s.limits).errorLines;
      && t.unrelatedEdit.Some?
      && (t.unrelatedEdit.value <==>
            exists i: nat :: ChangedUnflagged(Lines(before.value), Lines(t.output), flagged, i))
  }

  // Everything a turn records.
  ghost predicate TurnSays(s: Setup, turns: seq<TurnRecord>, i: nat)
    requires i < |turns|
  {
    var t, before := turns[i], if i == 0 then None else Some(turns[i - 1].output);
    var e := Evaluate(s.compiler, t.output, ScoredBy(s), s.limits);
    && t.turn == i && t.latency == s.clock(i)
    && s.model.generate(i, t.prompt) == Generated(t.output, t.tokens)
    && t.parsed == e.parsed && t.checked == e.checked && t.specsPassed == e.specsPassed
    && t.inventedSymbols == e.inventedSymbols
    && PromptSays(s, t.prompt, before) && SignalSays(s, t, before)
  }

  lemma ScoredByIs(s: Setup)
    ensures ScoredBy(s) == SpecsFor(s.task, s.variant)
  {}

  // Every turn of a run is the model's answer to a prompt that feeds the turn before
  // it back, judged by what compiling it says.
  lemma EveryTurn(s: Setup, i: nat)
    requires i < |RunOf(s).turns|
    ensures TurnSays(s, RunOf(s).turns, i)
  {
    hide Session, Evaluate, Scored, Genuine, TurnSays;
    SessionIsGenuine(s, 0, None);
    GenuineSays(s, RunOf(s).turns, i);
  }

  lemma GenuineSays(s: Setup, turns: seq<TurnRecord>, i: nat)
    requires i < |turns| && Genuine(s, 0, None, turns)
    ensures TurnSays(s, turns, i)
  {
    hide Evaluate, SpecsFor, ScoredBy, Lines, ChangedUnflagged;
    ScoredByIs(s);
    assert GenuineTurn(s, 0 + i, Preceding(s, None, turns, i), turns[i]);
  }

  // A run that ended in an error ended in the model's own, to the prompt of the next turn.
  lemma ErrorIsTheModels(s: Setup)
    requires RunOf(s).generationError.Some?
    ensures exists p :: (
      && PromptSays(s, p, LastOutput(RunOf(s).turns))
      && s.model.generate(|RunOf(s).turns|, p) == Failed(RunOf(s).generationError.value))
  {
    hide Session, Evaluate, Scored, SpecsFor, ScoredBy, Genuine;
    SessionIsGenuine(s, 0, None);
    ScoredByIs(s);
    var turns := RunOf(s).turns;
    assert PromptSays(s, PromptFor(s, Preceding(s, None, turns, |turns|)), LastOutput(turns));
  }

  function LastOutput(turns: seq<TurnRecord>): Option<string> {
    if turns == [] then None else Some(turns[|turns| - 1].output)
  }

  // Held-out tests are scored exactly when there are some and the final program
  // checked; and then passed exactly when it passes with the tests for specs.
  lemma TestsScoredExactly(s: Setup)
    ensures var run := RunOf(s);
      run.testsPassed.Some? <==> s.task.tests != [] && run.turns != [] && run.turns[|run.turns| - 1].checked
    ensures var run := RunOf(s);
      run.testsPassed.Some? ==> (
        var last := LastOutput(run.turns);
        && last.Some?
        && run.testsPassed.value == Evaluate(s.compiler, last.value, s.task.tests, s.limits).specsPassed)
  {
    hide Session, Evaluate, EditSignal, SpecsFor, Genuine;
    SessionIsGenuine(s, 0, None);
    var run := RunOf(s);
    if run.turns != [] { LastIsEvaluated(s, run.turns); }
  }

  lemma LastIsEvaluated(s: Setup, turns: seq<TurnRecord>)
    requires turns != [] && Genuine(s, 0, None, turns)
    ensures turns[|turns| - 1].checked == Attempted(s, turns[|turns| - 1].output).evaluation.checked
  {
    hide Evaluate, EditSignal, SpecsFor;
  }

  // ---- Scoring a recorded run again ----

  function FindTask(tasks: seq<BenchTask>, id: string): (r: Option<BenchTask>)
    ensures r.Some? ==> r.value in tasks && r.value.id == id
    ensures r.None? ==> forall t :: t in tasks ==> t.id != id
  {
    if tasks == [] then None else if tasks[0].id == id then Some(tasks[0]) else FindTask(tasks[1..], id)
  }

  function FindVariant(variants: seq<SyntaxVariant>, labelText: string): (r: Option<SyntaxVariant>)
    ensures r.Some? ==> r.value in variants && r.value.labelText == labelText
    ensures r.None? ==> forall v :: v in variants ==> v.labelText != labelText
  {
    if variants == [] then None
    else if variants[0].labelText == labelText then Some(variants[0])
    else FindVariant(variants[1..], labelText)
  }

  // Of several tasks with one id, and of several variants with one label, the first is
  // found.
  lemma {:induction false} FirstTaskIsFound(tasks: seq<BenchTask>, i: nat)
    requires i < |tasks| && forall j :: 0 <= j < i ==> tasks[j].id != tasks[i].id
    ensures FindTask(tasks, tasks[i].id) == Some(tasks[i])
  {
    if i > 0 { FirstTaskIsFound(tasks[1..], i - 1); }
  }

  lemma {:induction false} FirstVariantIsFound(variants: seq<SyntaxVariant>, i: nat)
    requires i < |variants| && forall j :: 0 <= j < i ==> variants[j].labelText != variants[i].labelText
    ensures FindVariant(variants, variants[i].labelText) == Some(variants[i])
  {
    if i > 0 { FirstVariantIsFound(variants[1..], i - 1); }
  }

  // The specs a recorded run is scored against again: those its label resolves to.
  function ResolvedSpecs(task: BenchTask, labelText: string): seq<string> {
    SpecsFor(task, FindVariant(task.variants, labelText))
  }

  ghost function Rescored(c: Compiler, limits: nat, clock: nat -> nat, tasks: seq<BenchTask>, run: TaskRun): TaskRun {
    var task := FindTask(tasks, run.taskId);
    if task.None? then run
    else
      var specs := ResolvedSpecs(task.value, run.variant);
      run.(turns := seq(|run.turns|, i requires 0 <= i < |run.turns| =>
             Rejudged(c, limits, specs, clock, run.turns, i)),
           testsPassed := Scored(c, limits, task.value, Before(c, limits, specs, run.turns, |run.turns|)))
  }

  method RescoreOne(c: Compiler, limits: nat, clock: nat -> nat, tasks: seq<BenchTask>, run: TaskRun)
      returns (r: TaskRun)
    ensures r == Rescored(c, limits, clock, tasks, run)
  {
    hide Evaluate, IsUnrelated, Scored, SpecsFor, Judge;
    var task := FindTask(tasks, run.taskId);
    if task.None? { return run; }
    var specs := ResolvedSpecs(task.value, run.variant);
    var turns: seq<TurnRecord> := [];
    var previous: Option<Attempt> := None;
    while |turns| < |run.turns|
      invariant |turns| <= |run.turns|
      invariant previous == Before(c, limits, specs, run.turns, |turns|)
      invariant forall i :: 0 <= i < |turns| ==> turns[i] == Rejudged(c, limits, specs, clock, run.turns, i)
    {
      var i := |turns|;
      var record := run.turns[i];
      var e := EvaluateProgram(c, record.output, specs, limits);
      var signal := None;
      if previous.Some? {
        var unrelated := IsUnrelatedEdit(previous.value.source, record.output, previous.value.evaluation.errorLines);
        signal := Some(unrelated);
      }
      turns := turns + [Judge(record, e, clock(i), signal)];
      previous := Some(Attempt(record.output, e));
    }
    var tests := ScoreTests(c, limits, task.value, previous);
    r := run.(turns := turns, testsPassed := tests);
  }

  // ---- Reproduction ----

  function Timeless(run: TaskRun): TaskRun {
    run.(turns := seq(|run.turns|, i requires 0 <= i < |run.turns| => run.turns[i].(latency := 0)))
  }

  // A generation that two lists of specs make one program of, or none that can be
  // stored.
  predicate SameProgram(g: string, a: seq<string>, b: seq<string>) {
    Assembled(g, a) == Assembled(g, b) || !(Storable(Assembled(g, a)) || Storable(Assembled(g, b)))
  }

  ghost predicate SamePrograms(a: seq<string>, b: seq<string>) {
    forall g :: SameProgram(g, a, b)
  }

  lemma SameProgramsEvaluateAlike(c: Compiler, a: seq<string>, b: seq<string>, limits: nat, g: string)
    requires SamePrograms(a, b)
    ensures Evaluate(c, g, a, limits) == Evaluate(c, g, b, limits)
  {
    hide Judged, Lines, Storable;
    AssembledStarts("", a);
    AssembledStarts("", b);
    EmptyIsStorable();
    assert SameProgram("", a, b) && SameProgram(g, a, b);
  }

  lemma EmptyIsStorable()
    ensures Storable("")
  {}

  lemma SamePredecessor(s: Setup, specs: seq<string>, turns: seq<TurnRecord>, i: nat)
    requires i <= |turns| && SamePrograms(specs, SpecsFor(s.task, s.variant))
    ensures Before(s.compiler, s.limits, specs, turns, i) == Preceding(s, None, turns, i)
  {
    hide Evaluate, SpecsFor, SamePrograms;
    if i > 0 {
      SameProgramsEvaluateAlike(s.compiler, specs, SpecsFor(s.task, s.variant), s.limits, turns[i - 1].output);
    }
  }

  lemma TurnReproduced(s: Setup, specs: seq<string>, clock: nat -> nat, turns: seq<TurnRecord>, i: nat)
    requires i < |turns| && SamePrograms(specs, SpecsFor(s.task, s.variant)) && Genuine(s, 0, None, turns)
    ensures Rejudged(s.compiler, s.limits, specs, clock, turns, i) == turns[i].(latency := clock(i))
  {
    hide Evaluate, EditSignal, SpecsFor, SamePrograms;
    SamePredecessor(s, specs, turns, i);
    SameProgramsEvaluateAlike(s.compiler, specs, SpecsFor(s.task, s.variant), s.limits, turns[i].output);
    assert GenuineTurn(s, 0 + i, Preceding(s, None, turns, i), turns[i]);
  }

  // Two lists of tests score every program of these specs alike.
  predicate SameTests(g: string, specs: seq<string>, a: seq<string>, b: seq<string>) {
    Storable(Assembled(g, specs)) ==> (a == [] <==> b == []) && SameProgram(g, a, b)
  }

  // The record leads back to what it was scored with: the first task of its id makes,
  // by its label, the same programs, and tests them alike. A record of an unknown task
  // is left as it is.
  ghost predicate LeadsBack(tasks: seq<BenchTask>, task: BenchTask, variant: Option<SyntaxVariant>) {
    var found := FindTask(tasks, task.id);
    found.Some? ==>
      && SamePrograms(ResolvedSpecs(found.value, LabelOf(variant)), SpecsFor(task, variant))
      && forall g :: SameTests(g, SpecsFor(task, variant), found.value.tests, task.tests)
  }

  lemma SameTestsScoreAlike(s: Setup, found: BenchTask, last: Option<Attempt>)
    requires last.Some? ==> last.value == Attempted(s, last.value.source)
    requires last.Some? ==> SameTests(last.value.source, SpecsFor(s.task, s.variant), found.tests, s.task.tests)
    ensures Scored(s.compiler, s.limits, found, last) == Scored(s.compiler, s.limits, s.task, last)
  {
    hide Assembled, Storable, Judged, Lines, SpecsFor;
  }

  lemma LastIsAttempt(s: Setup, turns: seq<TurnRecord>)
    ensures var last := Preceding(s, None, turns, |turns|); last.Some? ==> last.value == Attempted(s, last.value.source)
  {
    hide Evaluate, SpecsFor;
  }

  // Scoring a genuine run again gives it back, but for the measured latency, when its
  // record leads back to what it was scored with.
  lemma RescoreReproduces(s: Setup, clock: nat -> nat, tasks: seq<BenchTask>)
    requires LeadsBack(tasks, s.task, s.variant)
    ensures Timeless(Rescored(s.compiler, s.limits, clock, tasks, RunOf(s))) == Timeless(RunOf(s))
  {
    hide Session, SpecsFor, ResolvedSpecs, Scored, SamePrograms, SameTests, Rejudged, Before, Preceding, Genuine;
    SessionIsGenuine(s, 0, None);
    var run, found := RunOf(s), FindTask(tasks, s.task.id);
    if found.Some? {
      var specs := ResolvedSpecs(found.value, run.variant);
      var again := Rescored(s.compiler, s.limits, clock, tasks, run);
      SamePredecessor(s, specs, run.turns, |run.turns|);
      LastIsAttempt(s, run.turns);
      SameTestsScoreAlike(s, found.value, Preceding(s, None, run.turns, |run.turns|));
      forall i | 0 <= i < |run.turns| ensures again.turns[i] == run.turns[i].(latency := clock(i)) {
        TurnReproduced(s, specs, clock, run.turns, i);
      }
      assert Timeless(again).turns == Timeless(run).turns;
    }
  }

  // Otherwise some compiler and model tell: what is recorded of the run and what
  // scoring it again says are not the same.
  lemma MisresolvedRunIsNotReproduced(tasks: seq<BenchTask>, task: BenchTask, variant: Option<SyntaxVariant>,
                                      clock: nat -> nat)
      returns (s: Setup)
    requires !LeadsBack(tasks, task, variant)
    ensures s.task == task && s.variant == variant
    ensures Timeless(Rescored(s.compiler, s.limits, clock, tasks, RunOf(s))) != Timeless(RunOf(s))
  {
    hide ResolvedSpecs, SpecsFor, SameProgram, SameTests, RunOf, Rescored, Timeless;
    var found := FindTask(tasks, task.id).value;
    var wrong, right := ResolvedSpecs(found, LabelOf(variant)), SpecsFor(task, variant);
    if g :| !SameProgram(g, wrong, right) {
      s := SpecsTell(tasks, task, variant, g, clock);
    } else {
      assert SamePrograms(wrong, right);
      var g :| !SameTests(g, right, found.tests, task.tests);
      s := TestsTell(tasks, task, variant, g, clock);
    }
  }

  // One turn, one answer, and a model that gives it.
  function OneShot(c: Compiler, task: BenchTask, variant: Option<SyntaxVariant>, g: string): Setup {
    Setup(c, 0, Model((turn, prompt) => Generated(g, 0)), turn => 0, task, variant, 0)
  }

  lemma OneShotRuns(c: Compiler, task: BenchTask, variant: Option<SyntaxVariant>, g: string, clock: nat -> nat,
                    tasks: seq<BenchTask>)
    requires FindTask(tasks, task.id).Some?
    ensures var s, found := OneShot(c, task, variant, g), FindTask(tasks, task.id).value;
      var run, again := RunOf(s), Rescored(c, 0, clock, tasks, RunOf(s));
      var e := Evaluate(c, g, SpecsFor(task, variant), 0);
      var e' := Evaluate(c, g, ResolvedSpecs(found, LabelOf(variant)), 0);
      && |run.turns| == |again.turns| == 1
      && run.turns[0].Passed() == e.IsSuccess() && again.turns[0].Passed() == e'.IsSuccess()
      && run.testsPassed == Scored(c, 0, task, Some(Attempt(g, e)))
      && again.testsPassed == Scored(c, 0, found, Some(Attempt(g, e')))
  {
    hide ResolvedSpecs, SpecsFor, PromptFor, EditSignal, Scored, Evaluate;
    var s := OneShot(c, task, variant, g);
    SessionStep(s, 1, Some(Attempted(s, g)));
    assert RunOf(s).turns[0].output == g;
  }

  // Where the specs make another program, a compiler that accepts one of the two.
  lemma SpecsTell(tasks: seq<BenchTask>, task: BenchTask, variant: Option<SyntaxVariant>, g: string, clock: nat -> nat)
      returns (s: Setup)
    requires FindTask(tasks, task.id).Some?
    requires !SameProgram(g, ResolvedSpecs(FindTask(tasks, task.id).value, LabelOf(variant)), SpecsFor(task, variant))
    ensures s.task == task && s.variant == variant
    ensures Timeless(Rescored(s.compiler, s.limits, clock, tasks, RunOf(s))) != Timeless(RunOf(s))
  {
    hide Assembled, Storable, ResolvedSpecs, SpecsFor, Scored, Evaluate, RunOf, Rescored;
    var found := FindTask(tasks, task.id).value;
    var wrong, right := ResolvedSpecs(found, LabelOf(variant)), SpecsFor(task, variant);
    var accepted := if Storable(Assembled(g, right)) then Assembled(g, right) else Assembled(g, wrong);
    var bad := Diagnostic(Severity.Error, Type, 1, true, 0);
    var c := Compiler(text => if text == accepted then [] else [bad], (text, limits) => Ran(true));
    s := OneShot(c, task, variant, g);
    AcceptsOne(c, accepted, bad, g, right);
    AcceptsOne(c, accepted, bad, g, wrong);
    OneShotRuns(c, task, variant, g, clock, tasks);
    var run, again := RunOf(s), Rescored(c, 0, clock, tasks, RunOf(s));
    assert run.turns[0].Passed() != again.turns[0].Passed();
    assert Timeless(run).turns[0].Passed() == run.turns[0].Passed();
    assert Timeless(again).turns[0].Passed() == again.turns[0].Passed();
  }

  // Where only the tests differ, a compiler that accepts everything and passes the
  // specs of one of the two test programs.
  lemma TestsTell(tasks: seq<BenchTask>, task: BenchTask, variant: Option<SyntaxVariant>, g: string, clock: nat -> nat)
      returns (s: Setup)
    requires FindTask(tasks, task.id).Some?
    requires SamePrograms(ResolvedSpecs(FindTask(tasks, task.id).value, LabelOf(variant)), SpecsFor(task, variant))
    requires !SameTests(g, SpecsFor(task, variant), FindTask(tasks, task.id).value.tests, task.tests)
    ensures s.task == task && s.variant == variant
    ensures Timeless(Rescored(s.compiler, s.limits, clock, tasks, RunOf(s))) != Timeless(RunOf(s))
  {
    hide Assembled, Storable, ResolvedSpecs, SpecsFor, Evaluate, RunOf, Rescored, SamePrograms;
    var found := FindTask(tasks, task.id).value;
    var wrong, right := ResolvedSpecs(found, LabelOf(variant)), SpecsFor(task, variant);
    var passing := if Storable(Assembled(g, task.tests)) then Assembled(g, task.tests) else Assembled(g, found.tests);
    var c := Compiler(text => [], (text, limits) => Ran(text == passing));
    s := OneShot(c, task, variant, g);
    OneShotRuns(c, task, variant, g, clock, tasks);
    SameProgramsEvaluateAlike(c, wrong, right, 0, g);
    PassesOne(c, passing, g, right);
    PassesOne(c, passing, g, task.tests);
    PassesOne(c, passing, g, found.tests);
    var run, again := RunOf(s), Rescored(c, 0, clock, tasks, RunOf(s));
    assert run.testsPassed != again.testsPassed;
  }

  lemma PassesOne(c: Compiler, passing: string, g: string, specs: seq<string>)
    requires forall text :: c.check(text) == []
    requires forall text, limits :: c.runSpecs(text, limits) == Ran(text == passing)
    ensures var e, text := Evaluate(c, g, specs, 0), Assembled(g, specs);
      && (e.checked <==> Storable(text))
      && (specs != [] ==> (e.specsPassed <==> Storable(text) && text == passing))
  {
    hide Assembled, Storable, Lines, Rendered, ErrorLines;
  }

  lemma AcceptsOne(c: Compiler, accepted: string, bad: Diagnostic, g: string, specs: seq<string>)
    requires bad.severity.Error? && forall text :: c.check(text) == if text == accepted then [] else [bad]
    requires forall text, limits :: c.runSpecs(text, limits) == Ran(true)
    ensures Evaluate(c, g, specs, 0).IsSuccess() <==> Storable(Assembled(g, specs)) && Assembled(g, specs) == accepted
  {
    hide Assembled, Storable, Lines, Rendered, ErrorLines;
    assert [bad][0] == bad;
  }

  // Labels that are distinct and never "default" resolve as they should.
  lemma {:induction false} LabelsResolve(task: BenchTask, variant: Option<SyntaxVariant>)
    requires forall i, j :: 0 <= i < j < |task.variants| ==> task.variants[i].labelText != task.variants[j].labelText
    requires forall v :: v in task.variants ==> v.labelText != "default"
    requires variant.Some? ==> variant.value in task.variants
    ensures ResolvedSpecs(task, LabelOf(variant)) == SpecsFor(task, variant)
  {
    if variant.Some? {
      var found := FindVariant(task.variants, variant.value.labelText).value;
      var i :| 0 <= i < |task.variants| && task.variants[i] == found;
      var j :| 0 <= j < |task.variants| && task.variants[j] == variant.value;
      assert i == j;
    }
  }

  // So in a set whose tasks have distinct ids and whose labels are distinct and never
  // "default", every record leads back.
  lemma DistinctNamesLeadBack(tasks: seq<BenchTask>, task: BenchTask, variant: Option<SyntaxVariant>)
    requires task in tasks && forall i, j :: 0 <= i < j < |tasks| ==> tasks[i].id != tasks[j].id
    requires forall i, j :: 0 <= i < j < |task.variants| ==> task.variants[i].labelText != task.variants[j].labelText
    requires forall v :: v in task.variants ==> v.labelText != "default"
    requires variant.Some? ==> variant.value in task.variants
    ensures LeadsBack(tasks, task, variant)
  {
    hide Assembled, Storable, SpecsFor, ResolvedSpecs;
    LabelsResolve(task, variant);
    var found := FindTask(tasks, task.id).value;
    var i :| 0 <= i < |tasks| && tasks[i] == found;
    var j :| 0 <= j < |tasks| && tasks[j] == task;
    assert i == j;
  }

  // A variant called "default" takes the scoring of the default spelling over.
  lemma DefaultLabelConfuses(task: BenchTask, v: SyntaxVariant)
    requires task.variants == [v] && v.labelText == "default" && v.specs != []
    ensures ResolvedSpecs(task, LabelOf(None)) == v.specs
  {}

  // ---- Independence ----

  // Recorded runs that agree on everything but what scoring computes.
  predicate SameAnswers(a: TaskRun, b: TaskRun) {
    && a.taskId == b.taskId && a.variant == b.variant && a.generationError == b.generationError
    && |a.turns| == |b.turns|
    && forall i :: 0 <= i < |a.turns| ==>
      && a.turns[i].turn == b.turns[i].turn && a.turns[i].prompt == b.turns[i].prompt
      && a.turns[i].output == b.turns[i].output && a.turns[i].tokens == b.turns[i].tokens
  }

  // What a record claims about itself never reaches the verdict.
  lemma RescoreIgnoresClaims(c: Compiler, limits: nat, clock: nat -> nat, tasks: seq<BenchTask>, a: TaskRun, b: TaskRun)
    requires SameAnswers(a, b) && FindTask(tasks, a.taskId).Some?
    ensures Rescored(c, limits, clock, tasks, a) == Rescored(c, limits, clock, tasks, b)
  {
    hide Evaluate, EditSignal, SpecsFor, ResolvedSpecs, Scored;
    var x, y := Rescored(c, limits, clock, tasks, a), Rescored(c, limits, clock, tasks, b);
    var specs := ResolvedSpecs(FindTask(tasks, a.taskId).value, a.variant);
    assert forall i :: 0 <= i <= |a.turns| ==>
      Before(c, limits, specs, a.turns, i) == Before(c, limits, specs, b.turns, i);
    assert forall i :: 0 <= i < |a.turns| ==> x.turns[i] == y.turns[i];
    assert x.turns == y.turns;
  }

  // Scoring twice is scoring once.
  lemma RescoreIsIdempotent(c: Compiler, limits: nat, clock: nat -> nat, tasks: seq<BenchTask>, run: TaskRun)
    ensures var once := Rescored(c, limits, clock, tasks, run);
      SameAnswers(run, once) && Rescored(c, limits, clock, tasks, once) == once
  {
    hide Evaluate, EditSignal, SpecsFor, ResolvedSpecs, Scored;
    var once := Rescored(c, limits, clock, tasks, run);
    if FindTask(tasks, run.taskId).Some? { RescoreIgnoresClaims(c, limits, clock, tasks, run, once); }
  }
}
