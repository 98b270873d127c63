// What a fingerprint holds, and how a program's score follows from what two programs
// have in common.

module Fingerprints {
  import opened JaccardIndex
  import opened ProgramShapes
  import opened ShapeFacts
  import opened Overlap

  // ---- Headers ----

  // Programs are compared without their module headers: a header changes nothing.
  lemma HeaderIsIgnored(name: string, toks: TokenStream)
    requires IsName(name)
    ensures ProgramShape(HeaderBefore(name, toks)) == ShapeOf(toks)
  {
    hide ShapeOf;
    HeaderLeavesTwo(name, toks);
    var s := ["module", ";"] + ShapeOf(toks);
    assert s[2..] == ShapeOf(toks);
  }

  function HeaderBefore(name: string, toks: TokenStream): TokenStream
    requires IsName(name)
  {
    Header(name) + toks
  }

  // ---- Runs ----

  // The run stands in `s` from `i` on.
  predicate StandsIn<T(==)>(s: seq<T>, run: seq<T>, i: nat) {
    i + |run| <= |s| && s[i..i + |run|] == run
  }

  // A fingerprint holds exactly the runs of that length that stand somewhere.
  lemma ShinglesExactly(s: seq<string>, k: nat, run: seq<string>)
    ensures run in Shingles(s, k) <==> |run| == k && exists i: nat :: StandsIn(s, run, i)
  {
    if run in Shingles(s, k) {
      var i: nat :| i <= |s| - k && run == Shingle(s, k, i);
      assert StandsIn(s, run, i);
    }
    if |run| == k && exists i: nat :: StandsIn(s, run, i) {
      var i: nat :| StandsIn(s, run, i);
      assert run == Shingle(s, k, i);
    }
  }

  // Two stretches of `n` entries, one of each, that are the same.
  predicate SharedAt<T(==)>(s: seq<T>, t: seq<T>, n: nat, i: nat, j: nat) {
    i + n <= |s| && j + n <= |t| && s[i..i + n] == t[j..j + n]
  }

  lemma SharedRuns(s: seq<string>, t: seq<string>, k: nat)
    ensures (exists run :: run in Shingles(s, k) && run in Shingles(t, k)) <==>
      exists i: nat, j: nat :: SharedAt(s, t, k, i, j)
  {
    if run :| run in Shingles(s, k) && run in Shingles(t, k) {
      ShinglesExactly(s, k, run);
      ShinglesExactly(t, k, run);
      var i: nat :| StandsIn(s, run, i);
      var j: nat :| StandsIn(t, run, j);
      assert SharedAt(s, t, k, i, j);
    }
    if i: nat, j: nat :| SharedAt(s, t, k, i, j) {
      var run := s[i..i + k];
      assert StandsIn(s, run, i) && StandsIn(t, run, j);
      ShinglesExactly(s, k, run);
      ShinglesExactly(t, k, run);
    }
  }

  // ---- Scores ----

  // Two programs that are long enough to compare and not the same score above zero
  // exactly when they share five consecutive tokens of their shapes.
  lemma SimilarExactly(a: Item, b: Item)
    requires ProgramShape(a.program) != ProgramShape(b.program)
    requires |ProgramFingerprint(a.program)| >= 12 && |ProgramFingerprint(b.program)| >= 12
    ensures ProgramSimilarity(a, b) > 0.0 <==>
      exists i: nat, j: nat :: SharedAt(ProgramShape(a.program), ProgramShape(b.program), 5, i, j)
  {
    hide ProgramShape, Shingles, Jaccard;
    JaccardPositive(ProgramFingerprint(a.program), ProgramFingerprint(b.program));
    SharedRuns(ProgramShape(a.program), ProgramShape(b.program), 5);
  }

  // Programs too short to compare score only when they are the same and not trivial.
  lemma ShortScoresExactly(a: Item, b: Item)
    requires |ProgramFingerprint(a.program)| < 12 || |ProgramFingerprint(b.program)| < 12
    ensures ProgramSimilarity(a, b) ==
      if ProgramShape(a.program) == ProgramShape(b.program) && |ProgramShape(a.program)| >= 8 then 1.0 else 0.0
  {
    hide ProgramShape, Shingles;
  }

  // Two tasks score above zero exactly when they share three consecutive words.
  lemma TasksSimilarExactly(u: seq<string>, v: seq<string>)
    ensures Jaccard(TaskFingerprint(u), TaskFingerprint(v)) > 0.0 <==>
      exists i: nat, j: nat :: SharedAt(u, v, 3, i, j)
  {
    hide Shingles, Jaccard;
    JaccardPositive(TaskFingerprint(u), TaskFingerprint(v));
    SharedRuns(u, v, 3);
  }

  // ---- An edit in one place ----

  // The runs that start in a stretch.
  function RunsFrom(s: seq<string>, k: nat, lo: nat, hi: nat): set<seq<string>> {
    set i: nat | lo <= i < hi && i + k <= |s| :: Shingle(s, k, i)
  }

  lemma {:induction false} RunsFromSize(s: seq<string>, k: nat, lo: nat, hi: nat)
    requires lo <= hi
    ensures |RunsFrom(s, k, lo, hi)| <= hi - lo
    decreases hi - lo
  {
    if lo == hi {
      assert RunsFrom(s, k, lo, hi) == {};
    } else {
      var before, last := RunsFrom(s, k, lo, hi - 1), hi - 1;
      RunsFromSize(s, k, lo, last);
      assert RunsFrom(s, k, lo, hi) == if last + k <= |s| then before + {Shingle(s, k, last)} else before;
    }
  }

  // A run that avoids the edited stretch stands in both.
  lemma OtherRunsStay(p: seq<string>, x: seq<string>, y: seq<string>, q: seq<string>, k: nat, i: nat)
    requires i + k <= |p + x + q| && (i + k <= |p| || i >= |p| + |x|)
    ensures (p + x + q)[i..i + k] in Shingles(p + y + q, k)
  {
    var s, t := p + x + q, p + y + q;
    var run, j := s[i..i + k], if i + k <= |p| then i else i - |x| + |y|;
    assert t[j..j + k] == run;
    assert StandsIn(t, run, j);
    ShinglesExactly(t, k, run);
  }

  // Replacing a stretch loses no more runs than can meet it.
  lemma FewRunsLost(p: seq<string>, x: seq<string>, y: seq<string>, q: seq<string>, k: nat)
    requires k > 0
    ensures |Shingles(p + x + q, k) - Shingles(p + y + q, k)| <= |x| + k - 1
  {
    var s, lost := p + x + q, Shingles(p + x + q, k) - Shingles(p + y + q, k);
    var lo := if |p| >= k - 1 then |p| - (k - 1) else 0;
    var meeting := RunsFrom(s, k, lo, |p| + |x|);
    forall run | run in lost ensures run in meeting {
      ShinglesExactly(s, k, run);
      var i: nat :| StandsIn(s, run, i);
      if i < lo || i >= |p| + |x| { OtherRunsStay(p, x, y, q, k, i); }
      assert lo <= i < |p| + |x| && run == Shingle(s, k, i);
    }
    RunsFromSize(s, k, lo, |p| + |x|);
    SubsetSize(lost, meeting);
  }

  // Two programs whose shapes differ in one stretch only: if the first has `n` runs, and
  // its stretch `x` stands where the other has `y`, they score at least
  // (n - |x| - 4) / (n + |y| + 4).
  lemma EditedCopyScores(a: Item, b: Item, p: seq<string>, x: seq<string>, y: seq<string>, q: seq<string>)
    requires ProgramShape(a.program) == p + x + q && ProgramShape(b.program) == p + y + q
    requires |ProgramFingerprint(a.program)| >= 12 && |ProgramFingerprint(b.program)| >= 12
    ensures var n := |ProgramFingerprint(a.program)|;
      ProgramSimilarity(a, b) * (n + |y| + 4) as real >= (n as int - |x| - 4) as real
  {
    hide ProgramShape, Shingles, Jaccard;
    var f, g := ProgramFingerprint(a.program), ProgramFingerprint(b.program);
    FewRunsLost(p, x, y, q, 5);
    FewRunsLost(p, y, x, q, 5);
    JaccardAtLeast(f, g, |x| + 4, |y| + 4);
  }
}
