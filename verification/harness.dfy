// The benchmark loop: generate, compile, feed the diagnostics back, and keep every
// turn; and the re-scorer that compiles a recorded run again.

module Harnesses {
  import opened BenchTasks
  import opened Evaluations
  import opened QueryModel

  datatype Prompt = Prompt(
    instruction: string,
    variant: Option<string>,
    note: Option<string>,
    previous: Option<string>,
    feedback: seq<Feedback>)

  datatype Answer = Generated(source: string, tokens: nat) | Failed(reason: string)

  // Answers may differ from turn to turn even for one prompt.
  datatype Model = Model(generate: (nat, Prompt) -> Answer)

  datatype TurnRecord = TurnRecord(
    turn: nat,
    prompt: Prompt,
    output: string,
    tokens: nat,
    parsed: bool,
    checked: bool,
    specsPassed: bool,
    inventedSymbols: nat,
    latency: nat,
    unrelatedEdit: Option<bool>)
  {
    predicate Passed() { parsed && checked && specsPassed }
  }

  datatype TaskRun = TaskRun(
    taskId: string,
    variant: string,
    turns: seq<TurnRecord>,
    testsPassed: Option<bool>,
    generationError: Option<string>)
  {
    function RepairCycles(): nat { if turns == [] then 0 else |turns| - 1 }

    predicate EventuallySucceeded() { exists i :: 0 <= i < |turns| && turns[i].Passed() }

    predicate PassedWithinRepairs(n: nat) { exists i :: 0 <= i < |turns| && i <= n && turns[i].Passed() }
  }

  // A generation and what the compiler said about it.
  datatype Attempt = Attempt(source: string, evaluation: Evaluation)

  // Everything a run depends on; `clock` is the latency measured for each turn.
  datatype Setup = Setup(
    compiler: Compiler,
    limits: nat,
    model: Model,
    clock: nat -> nat,
    task: BenchTask,
    variant: Option<SyntaxVariant>,
    maxRepairs: nat)

  // ---- Unrelated edits ----

  function LineAt(lines: seq<string>, i: nat): Option<string> {
    if i < |lines| then Some(lines[i]) else None
  }

  predicate ChangedUnflagged(before: seq<string>, after: seq<string>, flagged: set<nat>, i: nat) {
    LineAt(before, i) != LineAt(after, i) && Clamped(i + 1) !in flagged
  }

  ghost predicate IsUnrelated(previous: string, current: string, flagged: set<nat>) {
    exists i: nat :: ChangedUnflagged(Lines(previous), Lines(current), flagged, i)
  }

  method IsUnrelatedEdit(previous: string, current: string, flagged: set<nat>) returns (unrelated: bool)
    ensures unrelated == IsUnrelated(previous, current, flagged)
  {
    hide Lines;
    var before, after := Lines(previous), Lines(current);
    var most := if |before| >= |after| then |before| else |after|;
    for i := 0 to most
      invariant forall k :: 0 <= k < i ==> !ChangedUnflagged(before, after, flagged, k)
    {
      if LineAt(before, i) != LineAt(after, i) {
        if Clamped(i + 1) !in flagged {
          assert ChangedUnflagged(before, after, flagged, i);
          return true;
        }
      }
    }
    unrelated := false;
  }

  // A repair of flagged lines only never adds a line: what lies past the previous
  // attempt cannot have been flagged.
  lemma RelatedRepairAddsNoLine(c: Compiler, specs: seq<string>, limits: nat, previous: string, current: string)
    requires |Lines(previous)| < MAX_U32
    requires !IsUnrelated(previous, current, Evaluate(c, previous, specs, limits).errorLines)
    ensures |Lines(current)| <= |Lines(previous)|
  {
    hide Lines, Evaluate;
    StagesNest(c, previous, specs, limits);
    var i, flagged := |Lines(previous)|, Evaluate(c, previous, specs, limits).errorLines;
    assert !ChangedUnflagged(Lines(previous), Lines(current), flagged, i);
  }

  // After an attempt that checked, nothing was flagged: a repair is unrelated
  // exactly when it changes a line.
  lemma RepairOfCheckedProgram(c: Compiler, specs: seq<string>, limits: nat, previous: string, current: string)
    requires Evaluate(c, previous, specs, limits).checked
    ensures IsUnrelated(previous, current, Evaluate(c, previous, specs, limits).errorLines)
      <==> Lines(previous) != Lines(current)
  {
    hide Lines, Evaluate;
    StagesNest(c, previous, specs, limits);
    var before, after := Lines(previous), Lines(current);
    if !IsUnrelated(previous, current, {}) {
      SameLines(before, after);
    }
  }

  lemma SameLines(before: seq<string>, after: seq<string>)
    requires forall i: nat :: !ChangedUnflagged(before, after, {}, i)
    ensures before == after
  {
    assert !ChangedUnflagged(before, after, {}, |after|);
    assert !ChangedUnflagged(before, after, {}, |before|);
    assert |before| == |after|;
    forall i | 0 <= i < |before| ensures before[i] == after[i] {
      assert !ChangedUnflagged(before, after, {}, i);
    }
  }

  // ---- One turn ----

  ghost function Attempted(s: Setup, source: string): Attempt {
    Attempt(source, Evaluate(s.compiler, source, SpecsFor(s.task, s.variant), s.limits))
  }

  function PromptFor(s: Setup, previous: Option<Attempt>): Prompt {
    Prompt(
      s.task.instruction,
      if s.variant.Some? then Some(s.variant.value.labelText) else None,
      if s.variant.Some? && s.variant.value.note != "" then Some(s.variant.value.note) else None,
      if previous.Some? then Some(previous.value.source) else None,
      if previous.Some? then previous.value.evaluation.feedback else [])
  }

  ghost function EditSignal(previous: Option<Attempt>, source: string): Option<bool> {
    match previous
    case None => None
    case Some(p) => Some(IsUnrelated(p.source, source, p.evaluation.errorLines))
  }

  // A record with the verdicts of an evaluation.
  function Judge(t: TurnRecord, e: Evaluation, latency: nat, unrelatedEdit: Option<bool>): TurnRecord {
    t.(parsed := e.parsed, checked := e.checked, specsPassed := e.specsPassed,
       inventedSymbols := e.inventedSymbols, latency := latency, unrelatedEdit := unrelatedEdit)
  }

  function Recorded(turn: nat, prompt: Prompt, source: string, tokens: nat, e: Evaluation, latency: nat,
                    unrelatedEdit: Option<bool>): TurnRecord {
    Judge(TurnRecord(turn, prompt, source, tokens, false, false, false, 0, 0, None), e, latency, unrelatedEdit)
  }

  // ---- The loop ----

  datatype RunEnd = RunEnd(turns: seq<TurnRecord>, last: Option<Attempt>, error: Option<string>)

  function Extended(turns: seq<TurnRecord>, o: RunEnd): RunEnd { o.(turns := turns + o.turns) }

  // What remains of a run from one turn on.
  ghost function Session(s: Setup, turn: nat, previous: Option<Attempt>): RunEnd
    decreases s.maxRepairs + 1 - turn
  {
    if turn > s.maxRepairs then RunEnd([], previous, None)
    else
      var prompt := PromptFor(s, previous);
      match s.model.generate(turn, prompt)
      case Failed(reason) => RunEnd([], previous, Some(reason))
      case Generated(source, tokens) =>
        var now := Attempted(s, source);
        var t := Recorded(turn, prompt, source, tokens, now.evaluation, s.clock(turn), EditSignal(previous, source));
        if now.evaluation.IsSuccess() then RunEnd([t], Some(now), None)
        else
          Extended([t], Session(s, turn + 1, Some(now)))
  }

  ghost function Scored(c: Compiler, limits: nat, task: BenchTask, last: Option<Attempt>): Option<bool> {
    if task.tests == [] || last.None? || !last.value.evaluation.checked then None
    else Some(TestsPass(c, last.value.source, task.tests, limits))
  }

  method ScoreTests(c: Compiler, limits: nat, task: BenchTask, last: Option<Attempt>) returns (r: Option<bool>)
    ensures r == Scored(c, limits, task, last)
  {
    if task.tests == [] { return None; }
    match last {
      case None => r := None;
      case Some(attempt) =>
        if !attempt.evaluation.checked { return None; }
        var passed := EvaluateTests(c, attempt.source, task.tests, limits);
        r := Some(passed);
    }
  }

  function LabelOf(variant: Option<SyntaxVariant>): string {
    if variant.Some? then variant.value.labelText else "default"
  }

  ghost function RunOf(s: Setup): TaskRun {
    var o := Session(s, 0, None);
    TaskRun(s.task.id, LabelOf(s.variant), o.turns, Scored(s.compiler, s.limits, s.task, o.last), o.error)
  }

  // One turn of the loop, up to recording it.
  method TakeTurn(s: Setup, turn: nat, previous: Option<Attempt>, source: string, tokens: nat)
      returns (t: TurnRecord, now: Attempt)
    ensures now == Attempted(s, source)
    ensures t == Recorded(turn, PromptFor(s, previous), source, tokens, now.evaluation, s.clock(turn),
      EditSignal(previous, source))
  {
    hide Evaluate, IsUnrelated, SpecsFor;
    var e := EvaluateProgram(s.compiler, source, SpecsFor(s.task, s.variant), s.limits);
    var signal := None;
    if previous.Some? {
      var unrelated := IsUnrelatedEdit(previous.value.source, source, previous.value.evaluation.errorLines);
      signal := Some(unrelated);
    }
    now := Attempt(source, e);
    t := Recorded(turn, PromptFor(s, previous), source, tokens, e, s.clock(turn), signal);
  }

  lemma ExtendedTwice(turns: seq<TurnRecord>, t: TurnRecord, o: RunEnd)
    ensures Extended(turns, Extended([t], o)) == Extended(turns + [t], o)
  {
    assert turns + ([t] + o.turns) == (turns + [t]) + o.turns;
  }

  // What the session does at one turn.
  lemma SessionStep(s: Setup, turn: nat, previous: Option<Attempt>)
    ensures turn > s.maxRepairs ==> Session(s, turn, previous) == RunEnd([], previous, None)
    ensures turn <= s.maxRepairs && s.model.generate(turn, PromptFor(s, previous)).Failed? ==>
      Session(s, turn, previous) == RunEnd([], previous, Some(s.model.generate(turn, PromptFor(s, previous)).reason))
    ensures turn <= s.maxRepairs && s.model.generate(turn, PromptFor(s, previous)).Generated? ==>
      var answer := s.model.generate(turn, PromptFor(s, previous));
      var now := Attempted(s, answer.source);
      var t := Recorded(turn, PromptFor(s, previous), answer.source, answer.tokens, now.evaluation, s.clock(turn),
                        EditSignal(previous, answer.source));
      Session(s, turn, previous) ==
      if now.evaluation.IsSuccess() then RunEnd([t], Some(now), None)
      else Extended([t], Session(s, turn + 1, Some(now)))
  {
    hide Recorded, EditSignal, Attempted, PromptFor;
  }

  method RunTask(s: Setup) returns (run: TaskRun)
    ensures run == RunOf(s)
  {
    hide Session, Recorded, EditSignal, Attempted, PromptFor, Scored, Extended;
    var turns: seq<TurnRecord> := [];
    var previous: Option<Attempt> := None;
    var error: Option<string> := None;
    ghost var whole := Session(s, 0, None);
    assert whole == Extended(turns, whole) by { EmptyExtends(whole); }
    var turn, going := 0, true;
    while going && turn <= s.maxRepairs
      invariant turn <= s.maxRepairs + 1
      invariant going ==> error.None? && whole == Extended(turns, Session(s, turn, previous))
      invariant !going ==> whole == RunEnd(turns, previous, error)
      decreases s.maxRepairs + 1 - turn, going
    {
      SessionStep(s, turn, previous);
      match s.model.generate(turn, PromptFor(s, previous)) {
        case Failed(reason) =>
          error, going := Some(reason), false;
          NothingMore(turns, previous, error);
        case Generated(source, tokens) =>
          var t, now := TakeTurn(s, turn, previous, source, tokens);
          if now.evaluation.IsSuccess() {
            going := false;
            LastTurn(turns, t, now);
          } else {
            ExtendedTwice(turns, t, Session(s, turn + 1, Some(now)));
          }
          turns, previous, turn := turns + [t], Some(now), turn + 1;
      }
    }
    if going {
      SessionStep(s, turn, previous);
      NothingMore(turns, previous, error);
    }
    var tests := ScoreTests(s.compiler, s.limits, s.task, previous);
    run := TaskRun(s.task.id, LabelOf(s.variant), turns, tests, error);
  }

  lemma EmptyExtends(o: RunEnd)
    ensures Extended([], o) == o
  {
    assert [] + o.turns == o.turns;
  }

  lemma NothingMore(turns: seq<TurnRecord>, last: Option<Attempt>, error: Option<string>)
    ensures Extended(turns, RunEnd([], last, error)) == RunEnd(turns, last, error)
  {
    assert turns + [] == turns;
  }

  lemma LastTurn(turns: seq<TurnRecord>, t: TurnRecord, now: Attempt)
    ensures Extended(turns, RunEnd([t], Some(now), None)) == RunEnd(turns + [t], Some(now), None)
  {}
}
