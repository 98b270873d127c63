// Near-duplicate detection over items, and what dropping harvested copies before
// the overlap checks can hide from them.

module Overlap {
  import opened QueryModel
  import opened JaccardIndex
  import opened SpecStripping
  import opened ProgramShapes

  const K: nat := 5
  const MIN_SHINGLES: nat := 12
  const MIN_IDENTICAL: nat := 8

  const EVAL_PROGRAM: real := 0.7
  const BENCH_PROGRAM: real := 0.8
  const TRAIN_PROGRAM: real := 0.9
  const TASK: real := 0.5

  type TokenStream = s: seq<string> | Tokens(s) witness []

  // One piece of material: its task's words and its program's tokens.
  datatype Item = Item(name: string, words: seq<string>, program: TokenStream)

  // ---- Fingerprints ----

  // The shape without its `module` header: the keyword and its `;`.
  function ProgramShape(program: TokenStream): seq<string> {
    var s := ShapeOf(program);
    if s == [] || s[0] != "module" then s
    else if |s| >= 2 then s[2..] else []
  }

  // The runs of `k` consecutive entries of `s`.
  function Shingles(s: seq<string>, k: nat): set<seq<string>> {
    set i: nat | i <= |s| - k :: Shingle(s, k, i)
  }

  function Shingle(s: seq<string>, k: nat, i: nat): seq<string>
    requires i + k <= |s|
  {
    s[i..i + k]
  }

  function ProgramFingerprint(program: TokenStream): set<seq<string>> {
    Shingles(ProgramShape(program), K)
  }

  function TaskFingerprint(words: seq<string>): set<seq<string>> {
    Shingles(words, 3)
  }

  // ---- Similarity ----

  function ProgramSimilarity(a: Item, b: Item): (r: real)
    ensures 0.0 <= r <= 1.0
  {
    if |ProgramShape(a.program)| >= MIN_IDENTICAL && ProgramShape(a.program) == ProgramShape(b.program) then 1.0
    else if |ProgramFingerprint(a.program)| >= MIN_SHINGLES && |ProgramFingerprint(b.program)| >= MIN_SHINGLES then
      Jaccard(ProgramFingerprint(a.program), ProgramFingerprint(b.program))
    else 0.0
  }

  lemma SimilaritySymmetric(a: Item, b: Item)
    ensures ProgramSimilarity(a, b) == ProgramSimilarity(b, a)
  {
    JaccardSymmetric(ProgramFingerprint(a.program), ProgramFingerprint(b.program));
  }

  // Similarity loses at most what the two steps lose, identical shapes and
  // programs too small to compare included.
  lemma SimilarityTriangle(a: Item, b: Item, c: Item)
    ensures ProgramSimilarity(a, c) >= ProgramSimilarity(a, b) + ProgramSimilarity(b, c) - 1.0
  {
    var fa, fb, fc := ProgramFingerprint(a.program), ProgramFingerprint(b.program), ProgramFingerprint(c.program);
    if |fa| >= MIN_SHINGLES && |fb| >= MIN_SHINGLES && |fc| >= MIN_SHINGLES {
      JaccardTriangle(fa, fb, fc);
    }
  }

  // ---- Reporting pairs ----

  datatype What = Program | Task

  datatype Match = Match(a: Item, b: Item, what: What, score: real)

  // The pair's match, by its program when both would do.
  function Judge(a: Item, b: Item, programThreshold: real, taskThreshold: Option<real>): Option<Match> {
    if ProgramSimilarity(a, b) >= programThreshold then Some(Match(a, b, Program, ProgramSimilarity(a, b)))
    else if taskThreshold.None? then None
    else
      var score := Jaccard(TaskFingerprint(a.words), TaskFingerprint(b.words));
      if score >= taskThreshold.value then Some(Match(a, b, Task, score)) else None
  }

  function PairsOf(a: Item, others: seq<Item>): seq<(Item, Item)> {
    seq(|others|, j requires 0 <= j < |others| => (a, others[j]))
  }

  // Every item with every other one of `against`...
  function PairsAgainst(items: seq<Item>, against: seq<Item>): seq<(Item, Item)> {
    if items == [] then [] else PairsOf(items[0], against) + PairsAgainst(items[1..], against)
  }

  // ...or every item with every later one.
  function PairsAmong(items: seq<Item>): seq<(Item, Item)> {
    if items == [] then [] else PairsOf(items[0], items[1..]) + PairsAmong(items[1..])
  }

  function Matches(pairs: seq<(Item, Item)>, programThreshold: real, taskThreshold: Option<real>): seq<Match> {
    if pairs == [] then []
    else
      var last := pairs[|pairs| - 1];
      var judged := Judge(last.0, last.1, programThreshold, taskThreshold);
      Matches(pairs[..|pairs| - 1], programThreshold, taskThreshold) + (if judged.Some? then [judged.value] else [])
  }

  function Compared(items: seq<Item>, against: Option<seq<Item>>): seq<(Item, Item)> {
    if against.Some? then PairsAgainst(items, against.value) else PairsAmong(items)
  }

  method NearDuplicates(items: seq<Item>, against: Option<seq<Item>>, programThreshold: real,
        taskThreshold: Option<real>)
    returns (found: seq<Match>)
    ensures found == Matches(Compared(items, against), programThreshold, taskThreshold)
  {
    hide ProgramSimilarity, Jaccard, TaskFingerprint;
    found := [];
    var pairs := Compared(items, against);
    for i := 0 to |pairs|
      invariant found == Matches(pairs[..i], programThreshold, taskThreshold)
    {
      var (a, b) := pairs[i];
      assert pairs[..i + 1][..i] == pairs[..i];
      var score := ProgramSimilarity(a, b);
      if score >= programThreshold {
        found := found + [Match(a, b, Program, score)];
        continue;
      }
      if taskThreshold.None? { continue; }
      score := Jaccard(TaskFingerprint(a.words), TaskFingerprint(b.words));
      if score >= taskThreshold.value {
        found := found + [Match(a, b, Task, score)];
      }
    }
    assert pairs[..|pairs|] == pairs;
  }

  // What a report says of a pair: by its program whenever that reaches the threshold,
  // else by its task if there is a task threshold and it reaches that.
  lemma JudgedExactly(a: Item, b: Item, pt: real, tt: Option<real>, m: Match)
    ensures Judge(a, b, pt, tt) == Some(m) <==> (
      && m.a == a && m.b == b
      && (if m.what.Program? then m.score == ProgramSimilarity(a, b) && m.score >= pt
          else
            && ProgramSimilarity(a, b) < pt && tt.Some? && m.score >= tt.value
            && m.score == Jaccard(TaskFingerprint(a.words), TaskFingerprint(b.words))))
  {
    hide ProgramSimilarity, Jaccard, TaskFingerprint;
  }

  // The three checks: a pair is refused at eight, seven or nine tenths by its programs,
  // and by its tasks at one half in the first two.
  lemma ThresholdsDecide(a: Item, b: Item)
    ensures var program, task := ProgramSimilarity(a, b), Jaccard(TaskFingerprint(a.words), TaskFingerprint(b.words));
      && (Judge(a, b, BENCH_PROGRAM, Some(TASK)).Some? <==> program >= 0.8 || task >= 0.5)
      && (Judge(a, b, EVAL_PROGRAM, Some(TASK)).Some? <==> program >= 0.7 || task >= 0.5)
      && (Judge(a, b, TRAIN_PROGRAM, None).Some? <==> program >= 0.9)
  {
    hide ProgramSimilarity, Jaccard, TaskFingerprint;
  }

  predicate Reported(pairs: seq<(Item, Item)>, pt: real, tt: Option<real>, i: nat)
    requires i < |pairs|
  {
    Judge(pairs[i].0, pairs[i].1, pt, tt).Some?
  }

  // The report lists exactly the pairs that reach a threshold, each once and in order.
  lemma {:induction false} ReportedExactly(pairs: seq<(Item, Item)>, pt: real, tt: Option<real>) returns (at: seq<nat>)
    ensures var found := Matches(pairs, pt, tt);
      && |at| == |found| && (forall j, k :: 0 <= j < k < |at| ==> at[j] < at[k])
      && (forall k :: 0 <= k < |at| ==>
            at[k] < |pairs| && Judge(pairs[at[k]].0, pairs[at[k]].1, pt, tt) == Some(found[k]))
      && (forall i: nat :: i < |pairs| ==> (i in at <==> Reported(pairs, pt, tt, i)))
  {
    hide Judge;
    if pairs == [] {
      at := [];
    } else {
      var front, n := pairs[..|pairs| - 1], |pairs| - 1;
      at := ReportedExactly(front, pt, tt);
      assert forall i :: 0 <= i < n ==> front[i] == pairs[i];
      forall i: nat | i < n ensures i in at <==> Reported(pairs, pt, tt, i) {
        assert i in at <==> Reported(front, pt, tt, i);
      }
      if Reported(pairs, pt, tt, n) { at := at + [n]; }
    }
  }

  lemma NothingFound(pairs: seq<(Item, Item)>, pt: real, tt: Option<real>, i: nat)
    requires Matches(pairs, pt, tt) == [] && i < |pairs|
    ensures ProgramSimilarity(pairs[i].0, pairs[i].1) < pt
    ensures tt.Some? ==> Jaccard(TaskFingerprint(pairs[i].0.words), TaskFingerprint(pairs[i].1.words)) < tt.value
  {
    hide ProgramSimilarity, Jaccard, TaskFingerprint, Matches;
    var at := ReportedExactly(pairs, pt, tt);
    assert i !in at;
  }

  lemma {:induction false} PairIsCompared(items: seq<Item>, against: seq<Item>, i: nat, j: nat) returns (k: nat)
    requires i < |items| && j < |against|
    ensures k < |PairsAgainst(items, against)| && PairsAgainst(items, against)[k] == (items[i], against[j])
  {
    hide ProgramSimilarity;
    if i == 0 {
      k := j;
    } else {
      k := PairIsCompared(items[1..], against, i - 1, j);
      k := k + |against|;
    }
  }

  lemma {:induction false} PairIsAmong(items: seq<Item>, i: nat, j: nat) returns (k: nat)
    requires i < j < |items|
    ensures k < |PairsAmong(items)| && PairsAmong(items)[k] == (items[i], items[j])
  {
    hide ProgramSimilarity;
    if i == 0 {
      k := j - 1;
    } else {
      k := PairIsAmong(items[1..], i - 1, j - 1);
      k := k + |items| - 1;
    }
  }

  // An empty report means every pair is below both thresholds.
  lemma EmptyReportMeansApart(items: seq<Item>, against: seq<Item>, pt: real, tt: Option<real>, i: nat, j: nat)
    requires Matches(PairsAgainst(items, against), pt, tt) == []
    requires i < |items| && j < |against|
    ensures ProgramSimilarity(items[i], against[j]) < pt
    ensures tt.Some? ==> Jaccard(TaskFingerprint(items[i].words), TaskFingerprint(against[j].words)) < tt.value
  {
    hide ProgramSimilarity, Jaccard, TaskFingerprint, Matches;
    var k := PairIsCompared(items, against, i, j);
    NothingFound(PairsAgainst(items, against), pt, tt, k);
  }

  lemma EmptyReportMeansDistinct(items: seq<Item>, pt: real, tt: Option<real>, i: nat, j: nat)
    requires Matches(PairsAmong(items), pt, tt) == [] && i < j < |items|
    ensures ProgramSimilarity(items[i], items[j]) < pt
    ensures tt.Some? ==> Jaccard(TaskFingerprint(items[i].words), TaskFingerprint(items[j].words)) < tt.value
  {
    hide ProgramSimilarity, Jaccard, TaskFingerprint, Matches;
    var k := PairIsAmong(items, i, j);
    NothingFound(PairsAmong(items), pt, tt, k);
  }

  // ---- Dropping harvested copies ----

  predicate Copies(item: Item, kept: seq<Item>) {
    exists k :: 0 <= k < |kept| && ProgramSimilarity(item, kept[k]) >= TRAIN_PROGRAM
  }

  // What is kept after the first `n` harvested items, seeds first.
  function KeptAfter(seeds: seq<Item>, harvested: seq<Item>, n: nat): seq<Item>
    requires n <= |harvested|
  {
    if n == 0 then seeds
    else
      var kept := KeptAfter(seeds, harvested, n - 1);
      if Copies(harvested[n - 1], kept) then kept else kept + [harvested[n - 1]]
  }

  function DroppedAfter(seeds: seq<Item>, harvested: seq<Item>, n: nat): seq<nat>
    requires n <= |harvested|
  {
    if n == 0 then []
    else
      var dropped := DroppedAfter(seeds, harvested, n - 1);
      if Copies(harvested[n - 1], KeptAfter(seeds, harvested, n - 1)) then dropped + [n - 1] else dropped
  }

  lemma {:induction false} KeptGrows(seeds: seq<Item>, harvested: seq<Item>, m: nat, n: nat)
    requires m <= n <= |harvested|
    ensures |KeptAfter(seeds, harvested, m)| <= |KeptAfter(seeds, harvested, n)|
    ensures forall k :: 0 <= k < |KeptAfter(seeds, harvested, m)| ==>
      KeptAfter(seeds, harvested, n)[k] == KeptAfter(seeds, harvested, m)[k]
  {
    hide Copies;
    if m < n { KeptGrows(seeds, harvested, m, n - 1); }
  }

  // Every harvested item ends up kept or dropped.
  lemma {:induction false} KeptOrDropped(seeds: seq<Item>, harvested: seq<Item>, n: nat, i: nat)
    requires i < n <= |harvested|
    ensures i in DroppedAfter(seeds, harvested, n) <==> Copies(harvested[i], KeptAfter(seeds, harvested, i))
    ensures i !in DroppedAfter(seeds, harvested, n) ==> harvested[i] in KeptAfter(seeds, harvested, n)
    ensures forall d :: d in DroppedAfter(seeds, harvested, n) ==> d < n
  {
    hide Copies;
    if n == i + 1 {
      DroppedBelow(seeds, harvested, i);
    } else {
      KeptOrDropped(seeds, harvested, n - 1, i);
    }
  }

  lemma {:induction false} DroppedBelow(seeds: seq<Item>, harvested: seq<Item>, n: nat)
    requires n <= |harvested|
    ensures forall d :: d in DroppedAfter(seeds, harvested, n) ==> d < n
  {
    hide Copies;
    if n > 0 { DroppedBelow(seeds, harvested, n - 1); }
  }

  // Dropped indices come in increasing order, and no item is both dropped and kept:
  // the counts add up.
  lemma {:induction false} DroppedInOrder(seeds: seq<Item>, harvested: seq<Item>, n: nat)
    requires n <= |harvested|
    ensures var dropped := DroppedAfter(seeds, harvested, n);
      forall j, k :: 0 <= j < k < |dropped| ==> dropped[j] < dropped[k]
    ensures forall d :: d in DroppedAfter(seeds, harvested, n) ==> d < n
    ensures |KeptAfter(seeds, harvested, n)| + |DroppedAfter(seeds, harvested, n)| == |seeds| + n
  {
    hide Copies;
    if n > 0 {
      DroppedInOrder(seeds, harvested, n - 1);
      var dropped := DroppedAfter(seeds, harvested, n - 1);
      assert forall j :: 0 <= j < |dropped| ==> dropped[j] in dropped;
    }
  }

  method HarvestDuplicates(seeds: seq<Item>, harvested: seq<Item>) returns (dropped: seq<nat>)
    ensures dropped == DroppedAfter(seeds, harvested, |harvested|)
    ensures forall j, k :: 0 <= j < k < |dropped| ==> dropped[j] < dropped[k]
    ensures forall i: nat :: i in dropped <==> i < |harvested| && Copies(harvested[i], KeptAfter(seeds, harvested, i))
    ensures |KeptAfter(seeds, harvested, |harvested|)| + |dropped| == |seeds| + |harvested|
  {
    hide ProgramSimilarity;
    var kept := seeds;
    dropped := [];
    for i := 0 to |harvested|
      invariant kept == KeptAfter(seeds, harvested, i)
      invariant dropped == DroppedAfter(seeds, harvested, i)
    {
      var item := harvested[i];
      if exists k :: 0 <= k < |kept| && ProgramSimilarity(item, kept[k]) >= TRAIN_PROGRAM {
        dropped := dropped + [i];
      } else {
        kept := kept + [item];
      }
    }
    DroppedInOrder(seeds, harvested, |harvested|);
    forall i: nat | i < |harvested|
      ensures i in dropped <==> Copies(harvested[i], KeptAfter(seeds, harvested, i))
    {
      KeptOrDropped(seeds, harvested, |harvested|, i);
    }
  }

  // No kept harvested item copies a seed or an earlier kept item.
  lemma {:induction false} KeptAreApart(seeds: seq<Item>, harvested: seq<Item>, n: nat, j: nat, k: nat)
    requires n <= |harvested| && j < k < |KeptAfter(seeds, harvested, n)| && |seeds| <= k
    ensures ProgramSimilarity(KeptAfter(seeds, harvested, n)[k], KeptAfter(seeds, harvested, n)[j]) < TRAIN_PROGRAM
  {
    hide ProgramSimilarity;
    var kept := KeptAfter(seeds, harvested, n - 1);
    if k < |kept| { KeptAreApart(seeds, harvested, n - 1, j, k); }
  }

  // A dropped item is, to within one part in ten, as close to anything as some
  // kept item is.
  lemma DroppedIsShadowed(seeds: seq<Item>, harvested: seq<Item>, i: nat, other: Item) returns (k: nat)
    requires i in DroppedAfter(seeds, harvested, |harvested|)
    ensures i < |harvested| && k < |KeptAfter(seeds, harvested, |harvested|)|
    ensures ProgramSimilarity(harvested[i], KeptAfter(seeds, harvested, |harvested|)[k]) >= TRAIN_PROGRAM
    ensures ProgramSimilarity(harvested[i], other)
      <= ProgramSimilarity(KeptAfter(seeds, harvested, |harvested|)[k], other) + (1.0 - TRAIN_PROGRAM)
  {
    hide ProgramSimilarity;
    DroppedBelow(seeds, harvested, |harvested|);
    KeptOrDropped(seeds, harvested, |harvested|, i);
    var kept := KeptAfter(seeds, harvested, i);
    k :| 0 <= k < |kept| && ProgramSimilarity(harvested[i], kept[k]) >= TRAIN_PROGRAM;
    KeptGrows(seeds, harvested, i, |harvested|);
    SimilaritySymmetric(harvested[i], kept[k]);
    SimilarityTriangle(kept[k], harvested[i], other);
  }

  // When the checks run on the kept items alone find nothing at a threshold, no
  // harvested item, dropped ones included, reaches a tenth above it.
  lemma CheckingKeptIsEnough(seeds: seq<Item>, harvested: seq<Item>, others: seq<Item>, pt: real, tt: Option<real>,
        i: nat, j: nat)
    requires Matches(PairsAgainst(KeptAfter(seeds, harvested, |harvested|), others), pt, tt) == []
    requires i < |harvested| && j < |others|
    ensures ProgramSimilarity(harvested[i], others[j]) < pt + (1.0 - TRAIN_PROGRAM)
  {
    hide ProgramSimilarity, Copies, Matches;
    var kept := KeptAfter(seeds, harvested, |harvested|);
    KeptOrDropped(seeds, harvested, |harvested|, i);
    if i in DroppedAfter(seeds, harvested, |harvested|) {
      var k := DroppedIsShadowed(seeds, harvested, i, others[j]);
      EmptyReportMeansApart(kept, others, pt, tt, k, j);
    } else {
      var k :| 0 <= k < |kept| && kept[k] == harvested[i];
      EmptyReportMeansApart(kept, others, pt, tt, k, j);
    }
  }

  // So a set accepted by the benchmark check holds no copy of a benchmark program,
  // by the training set's own measure of a copy.
  lemma NoBenchmarkCopyIsHarvested(seeds: seq<Item>, harvested: seq<Item>, bench: seq<Item>, i: nat, j: nat)
    requires Matches(PairsAgainst(KeptAfter(seeds, harvested, |harvested|), bench), BENCH_PROGRAM, Some(TASK)) == []
    requires i < |harvested| && j < |bench|
    ensures ProgramSimilarity(harvested[i], bench[j]) < TRAIN_PROGRAM
  {
    CheckingKeptIsEnough(seeds, harvested, bench, BENCH_PROGRAM, Some(TASK), i, j);
  }

  // The eval check lists the eval items against the seeds, what was kept and the
  // benchmark. When it passes, no harvested item comes within the benchmark's measure
  // of an eval item, dropped ones included, and no kept one within the eval's own.
  lemma EvalCheckCoversDropped(seeds: seq<Item>, harvested: seq<Item>, bench: seq<Item>, evals: seq<Item>,
        i: nat, j: nat)
    requires var others := KeptAfter(seeds, harvested, |harvested|) + bench;
      Matches(PairsAgainst(evals, others), EVAL_PROGRAM, Some(TASK)) == []
    requires i < |harvested| && j < |evals|
    ensures ProgramSimilarity(evals[j], harvested[i]) < BENCH_PROGRAM
    ensures i !in DroppedAfter(seeds, harvested, |harvested|) ==>
      ProgramSimilarity(evals[j], harvested[i]) < EVAL_PROGRAM
  {
    hide ProgramSimilarity, Copies, Matches;
    var kept := KeptAfter(seeds, harvested, |harvested|);
    KeptOrDropped(seeds, harvested, |harvested|, i);
    var k: nat;
    if i in DroppedAfter(seeds, harvested, |harvested|) {
      k := DroppedIsShadowed(seeds, harvested, i, evals[j]);
    } else {
      k :| k < |kept| && kept[k] == harvested[i];
    }
    assert (kept + bench)[k] == kept[k];
    EmptyReportMeansApart(evals, kept + bench, EVAL_PROGRAM, Some(TASK), j, k);
    SimilaritySymmetric(kept[k], evals[j]);
    SimilaritySymmetric(harvested[i], evals[j]);
  }

  // A renamed copy of a program long enough to compare scores 1.
  lemma RenamedCopyScoresOne(a: Item, b: Item, ren: map<string, string>)
    requires RenamedTokens(a.program, b.program, ren) && |ProgramShape(a.program)| >= MIN_IDENTICAL
    ensures ProgramSimilarity(a, b) == 1.0
  {
    hide ShapeOf, RenamedTokens, ShapeTags;
    RenamedCopyHasSameShape(a.program, b.program, ren);
  }
}
