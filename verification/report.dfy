// The metrics of a benchmark report, computed from its runs.

module Reports {
  import opened BenchTasks
  import opened Evaluations
  import opened Harnesses
  import opened QueryModel
  import opened Rescoring

  datatype Summary = Summary(
    runCount: nat,
    parseAt1: real,
    checkAt1: real,
    specPassAt1: real,
    testPassAt1: real,
    testableRuns: nat,
    repairAt1: real,
    averageRepairCycles: real,
    generatedTokens: nat,
    averageLatency: real,
    inventedSymbols: nat,
    unrelatedEditRate: real)

  // ---- Counting ----

  function Count<T>(items: seq<T>, p: T -> bool): (n: nat)
    ensures n <= |items|
  {
    if items == [] then 0 else Count(items[..|items| - 1], p) + (if p(items[|items| - 1]) then 1 else 0)
  }

  function Total<T>(items: seq<T>, f: T -> nat): nat {
    if items == [] then 0 else Total(items[..|items| - 1], f) + f(items[|items| - 1])
  }

  function Fraction<T>(items: seq<T>, p: T -> bool): real {
    if items == [] then 0.0 else Count(items, p) as real / |items| as real
  }

  // The share of `p` among the items that have `q`.
  function Share<T>(items: seq<T>, p: T -> bool, q: T -> bool): real {
    if Count(items, q) == 0 then 0.0 else Count(items, p) as real / Count(items, q) as real
  }

  function Mean<T>(items: seq<T>, f: T -> nat): real {
    if items == [] then 0.0 else Total(items, f) as real / |items| as real
  }

  method ComputeMean<T>(items: seq<T>, f: T -> nat) returns (mean: real)
    ensures mean == Mean(items, f)
  {
    var sum, count := 0.0, 0;
    while count < |items|
      invariant count <= |items| && sum == Total(items[..count], f) as real
    {
      assert items[..count + 1][..count] == items[..count];
      sum := sum + f(items[count]) as real;
      count := count + 1;
    }
    assert items[..count] == items;
    mean := if count == 0 then 0.0 else sum / count as real;
  }

  function AllTurns(runs: seq<TaskRun>): seq<TurnRecord> {
    if runs == [] then [] else AllTurns(runs[..|runs| - 1]) + runs[|runs| - 1].turns
  }

  predicate FirstParsed(r: TaskRun) { r.turns != [] && r.turns[0].parsed }
  predicate FirstChecked(r: TaskRun) { r.turns != [] && r.turns[0].checked }
  predicate FirstPassedSpecs(r: TaskRun) { r.turns != [] && r.turns[0].specsPassed }
  predicate RepairedOnce(r: TaskRun) { r.PassedWithinRepairs(1) }
  predicate Succeeded(r: TaskRun) { r.EventuallySucceeded() }
  predicate Testable(r: TaskRun) { r.testsPassed.Some? }
  predicate TestsPassed(r: TaskRun) { r.testsPassed == Some(true) }
  predicate IsRepair(t: TurnRecord) { t.unrelatedEdit.Some? }
  predicate IsUnrelatedRepair(t: TurnRecord) { t.unrelatedEdit == Some(true) }

  function Cycles(r: TaskRun): nat { r.RepairCycles() }
  function Tokens(t: TurnRecord): nat { t.tokens }
  function Latency(t: TurnRecord): nat { t.latency }
  function Invented(t: TurnRecord): nat { t.inventedSymbols }

  function FromRuns(runs: seq<TaskRun>): Summary {
    var turns := AllTurns(runs);
    Summary(
      |runs|,
      Fraction(runs, FirstParsed),
      Fraction(runs, FirstChecked),
      Fraction(runs, FirstPassedSpecs),
      Share(runs, TestsPassed, Testable),
      Count(runs, Testable),
      Fraction(runs, RepairedOnce),
      Mean(runs, Cycles),
      Total(turns, Tokens),
      Mean(turns, Latency),
      Total(turns, Invented),
      Share(turns, IsUnrelatedRepair, IsRepair))
  }

  // ---- How the metrics compare ----

  lemma {:induction false} CountsCompare<T>(items: seq<T>, p: T -> bool, q: T -> bool)
    requires forall i :: 0 <= i < |items| && p(items[i]) ==> q(items[i])
    ensures Count(items, p) <= Count(items, q)
  {
    if items != [] {
      assert forall i :: 0 <= i < |items| - 1 ==> items[..|items| - 1][i] == items[i];
      CountsCompare(items[..|items| - 1], p, q);
    }
  }

  lemma FractionsCompare<T>(items: seq<T>, p: T -> bool, q: T -> bool)
    requires forall i :: 0 <= i < |items| && p(items[i]) ==> q(items[i])
    ensures 0.0 <= Fraction(items, p) <= Fraction(items, q) <= 1.0
  {
    CountsCompare(items, p, q);
    if items != [] { QuotientsCompare(Count(items, p), Count(items, q), |items|); }
  }

  lemma QuotientsCompare(a: nat, b: nat, n: nat)
    requires a <= b <= n && n > 0
    ensures 0.0 <= a as real / n as real <= b as real / n as real <= 1.0
  {
    var x, y, z := a as real, b as real, n as real;
    assert x / z + (y - x) / z == y / z;
    assert y / z + (z - y) / z == 1.0;
  }

  // Every turn's stages nest.
  predicate StagesNested(run: TaskRun) {
    forall i :: 0 <= i < |run.turns| ==> Nested(run.turns[i])
  }

  predicate Nested(t: TurnRecord) { (t.specsPassed ==> t.checked) && (t.checked ==> t.parsed) }

  lemma RunsNest(s: Setup)
    ensures StagesNested(RunOf(s))
  {
    hide Session, Evaluate, EditSignal, Scored, Preceding, SpecsFor;
    SessionIsGenuine(s, 0, None);
    var run := RunOf(s);
    forall i | 0 <= i < |run.turns| ensures Nested(run.turns[i]) {
      assert GenuineTurn(s, 0 + i, Preceding(s, None, run.turns, i), run.turns[i]);
      StagesNest(s.compiler, run.turns[i].output, SpecsFor(s.task, s.variant), s.limits);
    }
  }

  lemma RescoredRunsNest(c: Compiler, limits: nat, clock: nat -> nat, tasks: seq<BenchTask>, run: TaskRun)
    requires FindTask(tasks, run.taskId).Some?
    ensures StagesNested(Rescored(c, limits, clock, tasks, run))
  {
    hide Evaluate, EditSignal, Scored, ResolvedSpecs;
    var again := Rescored(c, limits, clock, tasks, run);
    var specs := ResolvedSpecs(FindTask(tasks, run.taskId).value, run.variant);
    forall i | 0 <= i < |again.turns| ensures Nested(again.turns[i]) {
      StagesNest(c, run.turns[i].output, specs, limits);
    }
  }

  // Parse@1, Check@1 and SpecPass@1 never rise, one repair never hurts, and more
  // repairs hurt even less.
  lemma MetricsAreOrdered(runs: seq<TaskRun>)
    requires forall i :: 0 <= i < |runs| ==> StagesNested(runs[i])
    ensures var m := FromRuns(runs);
      && 0.0 <= m.specPassAt1 <= m.checkAt1 <= m.parseAt1 <= 1.0
      && m.specPassAt1 <= m.repairAt1 <= Fraction(runs, Succeeded) <= 1.0
  {
    hide Count, Total, Fraction, Share, Mean;
    forall i | 0 <= i < |runs|
      ensures FirstPassedSpecs(runs[i]) ==> FirstChecked(runs[i]) && RepairedOnce(runs[i])
      ensures FirstChecked(runs[i]) ==> FirstParsed(runs[i])
    {
      assert runs[i].turns != [] ==> Nested(runs[i].turns[0]);
    }
    FractionsCompare(runs, FirstPassedSpecs, FirstChecked);
    FractionsCompare(runs, FirstChecked, FirstParsed);
    FractionsCompare(runs, FirstPassedSpecs, RepairedOnce);
    FractionsCompare(runs, RepairedOnce, Succeeded);
  }

  // ---- Repair turns and repair cycles ----

  // The signal is carried by every turn but the first.
  predicate SignalsFromSecond(run: TaskRun) {
    forall i :: 0 <= i < |run.turns| ==> (IsRepair(run.turns[i]) <==> i > 0)
  }

  lemma RunsSignal(s: Setup)
    ensures SignalsFromSecond(RunOf(s))
  {
    hide Session, Evaluate, Scored, SpecsFor, IsUnrelated, Attempted;
    SessionIsGenuine(s, 0, None);
    var run := RunOf(s);
    forall i | 0 <= i < |run.turns| ensures IsRepair(run.turns[i]) <==> i > 0 {
      assert GenuineTurn(s, 0 + i, Preceding(s, None, run.turns, i), run.turns[i]);
    }
  }

  lemma {:induction false} CountAppends<T>(a: seq<T>, b: seq<T>, p: T -> bool)
    ensures Count(a + b, p) == Count(a, p) + Count(b, p)
    decreases |b|
  {
    if b == [] {
      assert a + b == a;
    } else {
      assert (a + b)[..|a + b| - 1] == a + b[..|b| - 1];
      CountAppends(a, b[..|b| - 1], p);
    }
  }

  lemma {:induction false} RepairsOfOneRun(run: TaskRun, n: nat)
    requires SignalsFromSecond(run) && n <= |run.turns|
    ensures Count(run.turns[..n], IsRepair) == if n == 0 then 0 else n - 1
  {
    if n > 0 {
      assert run.turns[..n][..n - 1] == run.turns[..n - 1];
      RepairsOfOneRun(run, n - 1);
    }
  }

  lemma {:induction false} RepairsOfAllRuns(runs: seq<TaskRun>)
    requires forall i :: 0 <= i < |runs| ==> SignalsFromSecond(runs[i])
    ensures Count(AllTurns(runs), IsRepair) == Total(runs, Cycles)
  {
    if runs != [] {
      var init, last := runs[..|runs| - 1], runs[|runs| - 1];
      RepairsOfAllRuns(init);
      CountAppends(AllTurns(init), last.turns, IsRepair);
      RepairsOfOneRun(last, |last.turns|);
      assert last.turns[..|last.turns|] == last.turns;
    }
  }

  lemma ShareTimes<T>(items: seq<T>, p: T -> bool, q: T -> bool)
    requires forall i :: 0 <= i < |items| && p(items[i]) ==> q(items[i])
    ensures Share(items, p, q) * Count(items, q) as real == Count(items, p) as real
  {
    hide Count;
    CountsCompare(items, p, q);
    if Count(items, q) > 0 { QuotientTimes(Count(items, p), Count(items, q)); }
  }

  lemma QuotientTimes(a: nat, b: nat)
    requires b > 0
    ensures a as real / b as real * b as real == a as real
  {}

  lemma MeanTimes<T>(items: seq<T>, f: T -> nat)
    ensures Mean(items, f) * |items| as real == Total(items, f) as real
  {
    hide Total;
    if items == [] { NothingTotal(f); } else { QuotientTimes(Total(items, f), |items|); }
  }

  lemma NothingTotal<T>(f: T -> nat)
    ensures Total([], f) == 0
  {}

  // The two repair metrics account for each other: the unrelated edits are the
  // unrelated edit rate times the repair cycles of all runs.
  lemma UnrelatedEditsAccounted(runs: seq<TaskRun>)
    requires forall i :: 0 <= i < |runs| ==> SignalsFromSecond(runs[i])
    ensures var m := FromRuns(runs);
      m.unrelatedEditRate * (m.averageRepairCycles * m.runCount as real) ==
        Count(AllTurns(runs), IsUnrelatedRepair) as real
  {
    hide Count, Total, Fraction, Share, Mean, AllTurns, SignalsFromSecond;
    var m, turns := FromRuns(runs), AllTurns(runs);
    RepairsOfAllRuns(runs);
    ShareTimes(turns, IsUnrelatedRepair, IsRepair);
    MeanTimes(runs, Cycles);
    assert m.averageRepairCycles * m.runCount as real == Count(turns, IsRepair) as real;
  }

  // ---- What the metrics count ----

  // Where the items that have `p` stand.
  function Places<T>(items: seq<T>, p: T -> bool): set<int> { set i | 0 <= i < |items| && p(items[i]) }

  lemma {:induction false} CountIs<T>(items: seq<T>, p: T -> bool)
    ensures Count(items, p) == |Places(items, p)|
  {
    var found := Places(items, p);
    if items == [] {
      assert found == {};
    } else {
      var n, init := |items| - 1, items[..|items| - 1];
      CountIs(init, p);
      var before := Places(init, p);
      assert found == if p(items[n]) then before + {n} else before;
    }
  }

  lemma FractionTimes<T>(items: seq<T>, p: T -> bool)
    ensures Fraction(items, p) * |items| as real == |Places(items, p)| as real
  {
    hide Count;
    CountIs(items, p);
    if items == [] {
      assert Places(items, p) == {};
    } else {
      QuotientTimes(Count(items, p), |items|);
    }
  }

  function ParsedFirst(runs: seq<TaskRun>): set<int> {
    set i | 0 <= i < |runs| && runs[i].turns != [] && runs[i].turns[0].parsed
  }

  function CheckedFirst(runs: seq<TaskRun>): set<int> {
    set i | 0 <= i < |runs| && runs[i].turns != [] && runs[i].turns[0].checked
  }

  function PassedFirst(runs: seq<TaskRun>): set<int> {
    set i | 0 <= i < |runs| && runs[i].turns != [] && runs[i].turns[0].specsPassed
  }

  // The run passed every stage in its first turn or the one after it.
  predicate PassedInTwo(run: TaskRun) {
    exists k :: 0 <= k < |run.turns| && k <= 1 && FullyPassed(run.turns[k])
  }

  predicate FullyPassed(t: TurnRecord) { t.parsed && t.checked && t.specsPassed }

  function PassedEarly(runs: seq<TaskRun>): set<int> { set i | 0 <= i < |runs| && PassedInTwo(runs[i]) }

  function Scorable(runs: seq<TaskRun>): set<int> { set i | 0 <= i < |runs| && runs[i].testsPassed != None }

  function PassedTests(runs: seq<TaskRun>): set<int> { set i | 0 <= i < |runs| && runs[i].testsPassed == Some(true) }

  lemma FirstsCount(runs: seq<TaskRun>)
    ensures Fraction(runs, FirstParsed) * |runs| as real == |ParsedFirst(runs)| as real
    ensures Fraction(runs, FirstChecked) * |runs| as real == |CheckedFirst(runs)| as real
    ensures Fraction(runs, FirstPassedSpecs) * |runs| as real == |PassedFirst(runs)| as real
  {
    hide Count, Fraction;
    FractionTimes(runs, FirstParsed);
    FractionTimes(runs, FirstChecked);
    FractionTimes(runs, FirstPassedSpecs);
    assert Places(runs, FirstParsed) == ParsedFirst(runs);
    assert Places(runs, FirstChecked) == CheckedFirst(runs);
    assert Places(runs, FirstPassedSpecs) == PassedFirst(runs);
  }

  lemma RepairsCount(runs: seq<TaskRun>)
    ensures Fraction(runs, RepairedOnce) * |runs| as real == |PassedEarly(runs)| as real
  {
    hide Count, Fraction;
    FractionTimes(runs, RepairedOnce);
    forall i | 0 <= i < |runs| ensures RepairedOnce(runs[i]) <==> PassedInTwo(runs[i]) {
      EarlyIs(runs[i]);
    }
    hide RepairedOnce, PassedInTwo;
    assert Places(runs, RepairedOnce) == PassedEarly(runs);
  }

  lemma EarlyIs(run: TaskRun)
    ensures RepairedOnce(run) <==> PassedInTwo(run)
  {
    assert forall k :: 0 <= k < |run.turns| ==> (run.turns[k].Passed() <==> FullyPassed(run.turns[k]));
  }

  lemma TestsCount(runs: seq<TaskRun>)
    ensures Count(runs, Testable) == |Scorable(runs)|
    ensures Share(runs, TestsPassed, Testable) * |Scorable(runs)| as real == |PassedTests(runs)| as real
  {
    hide Count, Share;
    CountIs(runs, Testable);
    CountIs(runs, TestsPassed);
    ShareTimes(runs, TestsPassed, Testable);
    assert Places(runs, Testable) == Scorable(runs);
    assert Places(runs, TestsPassed) == PassedTests(runs);
  }

  // Each share is of the runs it speaks of, and counts those that show what it names.
  lemma SharesCount(runs: seq<TaskRun>)
    ensures var m, n := FromRuns(runs), |runs| as real;
      && m.runCount == |runs|
      && m.parseAt1 * n == |ParsedFirst(runs)| as real
      && m.checkAt1 * n == |CheckedFirst(runs)| as real
      && m.specPassAt1 * n == |PassedFirst(runs)| as real
      && m.repairAt1 * n == |PassedEarly(runs)| as real
      && m.testableRuns == |Scorable(runs)|
      && m.testPassAt1 * m.testableRuns as real == |PassedTests(runs)| as real
  {
    hide Count, Total, Fraction, Share, Mean, AllTurns, ParsedFirst, CheckedFirst, PassedFirst, PassedEarly,
      Scorable, PassedTests;
    FirstsCount(runs);
    RepairsCount(runs);
    TestsCount(runs);
  }

  lemma {:induction false} TotalAppends<T>(a: seq<T>, b: seq<T>, f: T -> nat)
    ensures Total(a + b, f) == Total(a, f) + Total(b, f)
    decreases |b|
  {
    if b == [] {
      assert a + b == a;
    } else {
      assert (a + b)[..|a + b| - 1] == a + b[..|b| - 1];
      TotalAppends(a, b[..|b| - 1], f);
    }
  }

  function TurnCount(runs: seq<TaskRun>): nat { |AllTurns(runs)| }

  // One more turn adds its tokens, its invented symbols and its latency to the report;
  // one more run without turns adds nothing but itself.
  lemma TotalsGrow(runs: seq<TaskRun>, run: TaskRun, t: TurnRecord)
    ensures var longer, m := runs + [run.(turns := run.turns + [t])], FromRuns(runs + [run]);
      var more := FromRuns(longer);
      && more.generatedTokens == m.generatedTokens + t.tokens
      && more.inventedSymbols == m.inventedSymbols + t.inventedSymbols
      && TurnCount(longer) == TurnCount(runs + [run]) + 1
      && more.averageLatency * TurnCount(longer) as real
          == m.averageLatency * TurnCount(runs + [run]) as real + t.latency as real
    ensures run.turns == [] ==>
      && FromRuns(runs + [run]).generatedTokens == FromRuns(runs).generatedTokens
      && FromRuns(runs + [run]).inventedSymbols == FromRuns(runs).inventedSymbols
      && TurnCount(runs + [run]) == TurnCount(runs)
    ensures FromRuns([]).generatedTokens == FromRuns([]).inventedSymbols == TurnCount([]) == 0
  {
    hide Count, Fraction, Share, Mean, Total;
    var longer := runs + [run.(turns := run.turns + [t])];
    assert longer[..|runs|] == runs && (runs + [run])[..|runs|] == runs;
    var turns := AllTurns(runs + [run]);
    assert AllTurns(longer) == turns + [t];
    assert run.turns == [] ==> turns == AllTurns(runs);
    hide AllTurns;
    TotalAddsOne(turns, t, Tokens);
    TotalAddsOne(turns, t, Invented);
    TotalAddsOne(turns, t, Latency);
    MeanTimes(turns, Latency);
    MeanTimes(turns + [t], Latency);
    NothingTotal(Tokens);
    NothingTotal(Invented);
    assert TurnCount([]) == 0 by { NoTurns(); }
  }

  lemma NoTurns()
    ensures AllTurns([]) == []
  {}

  // A run counts one repair cycle for every turn after its first.
  lemma CyclesGrow(runs: seq<TaskRun>, run: TaskRun)
    ensures FromRuns(runs + [run]).averageRepairCycles * (|runs| + 1) as real
      == FromRuns(runs).averageRepairCycles * |runs| as real + (if run.turns == [] then 0 else |run.turns| - 1) as real
  {
    hide Count, Fraction, Share, Mean, AllTurns, Total;
    MeanTimes(runs, Cycles);
    MeanTimes(runs + [run], Cycles);
    TotalAddsOne(runs, run, Cycles);
    SumOfReals(Total(runs, Cycles), Cycles(run));
  }

  lemma TotalAddsOne<T>(items: seq<T>, item: T, f: T -> nat)
    ensures Total(items + [item], f) == Total(items, f) + f(item)
  {
    assert (items + [item])[..|items|] == items;
  }

  lemma SumOfReals(a: nat, b: nat)
    ensures (a + b) as real == a as real + b as real
  {}

  // ---- The report of a run scored again ----

  lemma {:induction false} CountsAgree<T>(a: seq<T>, b: seq<T>, p: T -> bool)
    requires |a| == |b| && forall i :: 0 <= i < |a| ==> p(a[i]) == p(b[i])
    ensures Count(a, p) == Count(b, p)
  {
    if a != [] { CountsAgree(a[..|a| - 1], b[..|b| - 1], p); }
  }

  lemma {:induction false} TotalsAgree<T>(a: seq<T>, b: seq<T>, f: T -> nat)
    requires |a| == |b| && forall i :: 0 <= i < |a| ==> f(a[i]) == f(b[i])
    ensures Total(a, f) == Total(b, f)
  {
    if a != [] { TotalsAgree(a[..|a| - 1], b[..|b| - 1], f); }
  }

  predicate AgreeTimeless(a: seq<TaskRun>, b: seq<TaskRun>) {
    |a| == |b| && forall i :: 0 <= i < |a| ==> Timeless(a[i]) == Timeless(b[i])
  }

  predicate TurnsAgree(a: seq<TurnRecord>, b: seq<TurnRecord>) {
    |a| == |b| && forall i :: 0 <= i < |a| ==> a[i].(latency := 0) == b[i].(latency := 0)
  }

  lemma RunsAgree(a: TaskRun, b: TaskRun)
    requires Timeless(a) == Timeless(b)
    ensures a.taskId == b.taskId && a.testsPassed == b.testsPassed && TurnsAgree(a.turns, b.turns)
  {
    var x, y := Timeless(a), Timeless(b);
    assert |x.turns| == |y.turns|;
    assert forall i :: 0 <= i < |a.turns| ==>
      x.turns[i] == a.turns[i].(latency := 0) && y.turns[i] == b.turns[i].(latency := 0);
  }

  lemma {:induction false} AllTurnsAgree(a: seq<TaskRun>, b: seq<TaskRun>)
    requires AgreeTimeless(a, b)
    ensures TurnsAgree(AllTurns(a), AllTurns(b))
  {
    if a != [] {
      AllTurnsAgree(a[..|a| - 1], b[..|b| - 1]);
      RunsAgree(a[|a| - 1], b[|b| - 1]);
    }
  }

  lemma JudgedAlike(a: TaskRun, b: TaskRun)
    requires Timeless(a) == Timeless(b)
    ensures FirstParsed(a) == FirstParsed(b) && FirstChecked(a) == FirstChecked(b)
    ensures FirstPassedSpecs(a) == FirstPassedSpecs(b) && RepairedOnce(a) == RepairedOnce(b)
    ensures Testable(a) == Testable(b) && TestsPassed(a) == TestsPassed(b) && Cycles(a) == Cycles(b)
  {
    RunsAgree(a, b);
    forall i | 0 <= i < |a.turns| ensures Verdicts(a.turns[i]) == Verdicts(b.turns[i]) {
      assert a.turns[i].(latency := 0) == b.turns[i].(latency := 0);
    }
    assert forall i :: 0 <= i < |a.turns| ==> (a.turns[i].Passed() <==> b.turns[i].Passed());
  }

  function Verdicts(t: TurnRecord): (bool, bool, bool) { (t.parsed, t.checked, t.specsPassed) }

  // Apart from latency, a report depends only on what re-scoring reproduces.
  lemma SummariesAgree(a: seq<TaskRun>, b: seq<TaskRun>)
    requires AgreeTimeless(a, b)
    ensures FromRuns(a).(averageLatency := 0.0) == FromRuns(b).(averageLatency := 0.0)
  {
    hide Count, Total, Timeless, FirstParsed, FirstChecked, FirstPassedSpecs, RepairedOnce, Testable, TestsPassed,
      Cycles;
    forall i | 0 <= i < |a|
      ensures FirstParsed(a[i]) == FirstParsed(b[i]) && FirstChecked(a[i]) == FirstChecked(b[i])
      ensures FirstPassedSpecs(a[i]) == FirstPassedSpecs(b[i]) && RepairedOnce(a[i]) == RepairedOnce(b[i])
      ensures Testable(a[i]) == Testable(b[i]) && TestsPassed(a[i]) == TestsPassed(b[i]) && Cycles(a[i]) == Cycles(b[i])
    {
      JudgedAlike(a[i], b[i]);
    }
    CountsAgree(a, b, FirstParsed);
    CountsAgree(a, b, FirstChecked);
    CountsAgree(a, b, FirstPassedSpecs);
    CountsAgree(a, b, RepairedOnce);
    CountsAgree(a, b, Testable);
    CountsAgree(a, b, TestsPassed);
    TotalsAgree(a, b, Cycles);
    TurnTotalsAgree(a, b);
  }

  lemma TurnTotalsAgree(a: seq<TaskRun>, b: seq<TaskRun>)
    requires AgreeTimeless(a, b)
    ensures Total(AllTurns(a), Tokens) == Total(AllTurns(b), Tokens)
    ensures Total(AllTurns(a), Invented) == Total(AllTurns(b), Invented)
    ensures Count(AllTurns(a), IsRepair) == Count(AllTurns(b), IsRepair)
    ensures Count(AllTurns(a), IsUnrelatedRepair) == Count(AllTurns(b), IsUnrelatedRepair)
  {
    hide Count, Total, AllTurns, Timeless;
    AllTurnsAgree(a, b);
    var x, y := AllTurns(a), AllTurns(b);
    forall i | 0 <= i < |x|
      ensures Tokens(x[i]) == Tokens(y[i]) && Invented(x[i]) == Invented(y[i])
      ensures IsRepair(x[i]) == IsRepair(y[i]) && IsUnrelatedRepair(x[i]) == IsUnrelatedRepair(y[i])
    {
      assert x[i].(latency := 0) == y[i].(latency := 0);
    }
    TotalsAgree(x, y, Tokens);
    TotalsAgree(x, y, Invented);
    CountsAgree(x, y, IsRepair);
    CountsAgree(x, y, IsUnrelatedRepair);
  }

  // The setups of one benchmark: one compiler, and tasks that the pinned set finds
  // by their ids and whose records lead back to what they were scored with.
  ghost predicate OfBenchmark(s: Setup, c: Compiler, limits: nat, tasks: seq<BenchTask>) {
    && s.compiler == c && s.limits == limits
    && FindTask(tasks, s.task.id).Some? && LeadsBack(tasks, s.task, s.variant)
  }

  method Rescore(c: Compiler, limits: nat, clock: nat -> nat, tasks: seq<BenchTask>, runs: seq<TaskRun>)
      returns (again: seq<TaskRun>)
    ensures |again| == |runs|
    ensures forall i :: 0 <= i < |runs| ==> again[i] == Rescored(c, limits, clock, tasks, runs[i])
  {
    hide Rescored;
    again := [];
    while |again| < |runs|
      invariant |again| <= |runs|
      invariant forall i :: 0 <= i < |again| ==> again[i] == Rescored(c, limits, clock, tasks, runs[i])
    {
      var one := RescoreOne(c, limits, clock, tasks, runs[|again|]);
      again := again + [one];
    }
  }

  // The stages' metrics never rise, and repairing never hurts.
  predicate Ordered(m: Summary) {
    0.0 <= m.specPassAt1 <= m.checkAt1 <= m.parseAt1 <= 1.0 && m.specPassAt1 <= m.repairAt1 <= 1.0
  }

  // The repair metrics account for the unrelated edits of the runs.
  predicate Accounted(m: Summary, runs: seq<TaskRun>) {
    m.unrelatedEditRate * (m.averageRepairCycles * m.runCount as real) ==
      Count(AllTurns(runs), IsUnrelatedRepair) as real
  }

  lemma ReportsHold(runs: seq<TaskRun>)
    requires forall i :: 0 <= i < |runs| ==> StagesNested(runs[i]) && SignalsFromSecond(runs[i])
    ensures Ordered(FromRuns(runs)) && Accounted(FromRuns(runs), runs)
  {
    hide FromRuns, StagesNested, SignalsFromSecond, Count, AllTurns;
    MetricsAreOrdered(runs);
    UnrelatedEditsAccounted(runs);
  }

  lemma RescoredRunsSignal(c: Compiler, limits: nat, clock: nat -> nat, tasks: seq<BenchTask>, run: TaskRun)
    requires FindTask(tasks, run.taskId).Some?
    ensures SignalsFromSecond(Rescored(c, limits, clock, tasks, run))
  {
    hide Evaluate, Scored, ResolvedSpecs, IsUnrelated;
    var again := Rescored(c, limits, clock, tasks, run);
    var specs := ResolvedSpecs(FindTask(tasks, run.taskId).value, run.variant);
    forall i | 0 <= i < |again.turns| ensures IsRepair(again.turns[i]) <==> i > 0 {
      assert again.turns[i] == Rejudged(c, limits, specs, clock, run.turns, i);
    }
  }

  // Score a record again, whatever it claims of itself: the report of what the
  // compiler says keeps the order of the metrics and accounts for its repairs.
  method VerifyRecord(c: Compiler, limits: nat, clock: nat -> nat, tasks: seq<BenchTask>, runs: seq<TaskRun>)
      returns (verified: Summary, again: seq<TaskRun>)
    requires forall i :: 0 <= i < |runs| ==> FindTask(tasks, runs[i].taskId).Some?
    ensures |again| == |runs| && forall i :: 0 <= i < |runs| ==> again[i] == Rescored(c, limits, clock, tasks, runs[i])
    ensures verified == FromRuns(again) && Ordered(verified) && Accounted(verified, again)
  {
    hide FromRuns, Rescored, StagesNested, SignalsFromSecond, Ordered, Accounted;
    again := Rescore(c, limits, clock, tasks, runs);
    forall i | 0 <= i < |again| ensures StagesNested(again[i]) && SignalsFromSecond(again[i]) {
      RescoredRunsNest(c, limits, clock, tasks, runs[i]);
      RescoredRunsSignal(c, limits, clock, tasks, runs[i]);
    }
    ReportsHold(again);
    verified := FromRuns(again);
  }

  // A benchmark and its verification: run every task, score the record again, and
  // the two reports are the same but for the measured latency.
  method RunAndVerify(setups: seq<Setup>, c: Compiler, limits: nat, clock: nat -> nat, tasks: seq<BenchTask>)
      returns (report: Summary, verified: Summary, runs: seq<TaskRun>, again: seq<TaskRun>)
    requires forall i :: 0 <= i < |setups| ==> OfBenchmark(setups[i], c, limits, tasks)
    ensures |runs| == |setups| && forall i :: 0 <= i < |setups| ==> runs[i] == RunOf(setups[i])
    ensures |again| == |runs| && forall i :: 0 <= i < |runs| ==> again[i] == Rescored(c, limits, clock, tasks, runs[i])
    ensures report == FromRuns(runs) && verified == FromRuns(again)
    ensures report.(averageLatency := 0.0) == verified.(averageLatency := 0.0)
    ensures Ordered(report) && Accounted(report, runs)
    ensures Ordered(verified) && Accounted(verified, again)
  {
    hide FromRuns, RunOf, Rescored, Timeless, OfBenchmark, StagesNested, SignalsFromSecond, Ordered, Accounted;
    runs := [];
    while |runs| < |setups|
      invariant |runs| <= |setups| && forall i :: 0 <= i < |runs| ==> runs[i] == RunOf(setups[i])
    {
      var run := RunTask(setups[|runs|]);
      runs := runs + [run];
    }
    forall i | 0 <= i < |runs| ensures FindTask(tasks, runs[i].taskId).Some? {
      RunIsKnown(setups[i], c, limits, tasks);
    }
    verified, again := VerifyRecord(c, limits, clock, tasks, runs);
    forall i | 0 <= i < |runs|
      ensures Timeless(runs[i]) == Timeless(again[i]) && StagesNested(runs[i]) && SignalsFromSecond(runs[i])
    {
      RunsNest(setups[i]);
      RunsSignal(setups[i]);
      RunReproduced(setups[i], c, limits, clock, tasks);
    }
    SummariesAgree(runs, again);
    ReportsHold(runs);
    report := FromRuns(runs);
  }

  lemma RunIsKnown(s: Setup, c: Compiler, limits: nat, tasks: seq<BenchTask>)
    requires OfBenchmark(s, c, limits, tasks)
    ensures FindTask(tasks, RunOf(s).taskId).Some?
  {
    hide Session, Scored, LeadsBack;
  }

  lemma RunReproduced(s: Setup, c: Compiler, limits: nat, clock: nat -> nat, tasks: seq<BenchTask>)
    requires OfBenchmark(s, c, limits, tasks)
    ensures Timeless(Rescored(c, limits, clock, tasks, RunOf(s))) == Timeless(RunOf(s))
  {
    hide RunOf, Rescored, Timeless, LeadsBack;
    RescoreReproduces(s, clock, tasks);
  }
}
