// What the engine recomputes, and why: consequences of `Serves` for the
// executions recorded in the log.

module EngineMinimality {
  import opened QueryModel
  import opened EngineStore
  import opened EngineRun
  import opened EngineLives
  import opened EngineSessions

  // The value and the dependencies of `k` are those it had, it was not confirmed
  // earlier than at `v`, and no dependency carries a later stamp.
  ghost predicate Kept<V>(rank: Key -> nat, s: Store<V>, k: Key, m: Memo<V>, v: nat) {
    && k in s.memos && s.memos[k].value == m.value && s.memos[k].deps == m.deps
    && v <= s.memos[k].verifiedAt
    && forall d :: d in m.deps ==> Stamp(s, d) <= v && (d in s.memos <==> rank(d) > 0)
  }

  lemma ConfirmedIsKept<V>(h: Host<V>, s: Store<V>, k: Key)
    requires Inv(h, s) && k in s.memos && s.memos[k].verifiedAt == s.revision
    ensures Kept(h.rank, s, k, s.memos[k], s.revision)
  {
    DepsLower(h, s, k);
  }

  // A dependency that does not move keeps its stamp within bounds.
  lemma StampStays<V>(rank: Key -> nat, s0: Store<V>, s1: Store<V>, d: Key, v: nat)
    requires Next(rank, s0, s1) && !Moved(s0, s1, d)
    requires Stamp(s0, d) <= v && (d in s0.memos <==> rank(d) > 0)
    ensures Stamp(s1, d) <= v && (d in s1.memos <==> rank(d) > 0)
  {
    if !Stamped(rank, s0, s1) && d in s1.memos {
      var below :| Evolves(rank, s0, s1, below);
      assert Stepped(MemoAt(s0, d), s1.memos[d], Ran(s0, s1, d), s1.revision);
      assert Ran(s0, s1, d) ==> 0 < rank(d);
    }
  }

  lemma KeptStep<V>(rank: Key -> nat, s0: Store<V>, s1: Store<V>, k: Key, m: Memo<V>, v: nat)
    requires Next(rank, s0, s1) && Kept(rank, s0, k, m, v)
    requires forall d :: d in m.deps ==> !Moved(s0, s1, d)
    ensures Kept(rank, s1, k, m, v)
    ensures Grew(s0, s1) && !Ran(s0, s1, k)
  {
    forall d | d in m.deps ensures Stamp(s1, d) <= v && (d in s1.memos <==> rank(d) > 0) {
      StampStays(rank, s0, s1, d, v);
    }
    if !Stamped(rank, s0, s1) {
      var below :| Evolves(rank, s0, s1, below);
      assert Ran(s0, s1, k) ==> Provoked(s0, s1, k);
      assert Stepped(MemoAt(s0, k), s1.memos[k], Ran(s0, s1, k), s1.revision);
    }
  }

  lemma {:induction false} KeptThrough<V>(rank: Key -> nat, run: seq<Store<V>>, i: nat, j: nat, k: Key, v: nat)
    requires Life(rank, run) && i <= j < |run|
    requires k in run[i].memos && Kept(rank, run[i], k, run[i].memos[k], v)
    requires forall n, d :: i <= n < j && d in run[i].memos[k].deps ==> !MovedAt(run, n, d)
    ensures Kept(rank, run[j], k, run[i].memos[k], v)
    decreases j
  {
    hide Kept;
    if i < j {
      KeptThrough(rank, run, i, j - 1, k, v);
      assert NextAt(rank, run, j - 1);
      assert forall d :: d in run[i].memos[k].deps ==> !MovedAt(run, j - 1, d);
      KeptStep(rank, run[j - 1], run[j], k, run[i].memos[k], v);
    }
  }

  // Early cutoff, over any number of edits and queries: once a key is confirmed,
  // then as long as no dependency it had recorded moves, it is not executed and
  // keeps its value.
  lemma KeepsWhileDepsKeep<V(!new)>(h: Host<V>, run: seq<Store<V>>, i: nat, j: nat, k: Key)
    requires Life(h.rank, run) && i <= j < |run| && Inv(h, run[i])
    requires k in run[i].memos && run[i].memos[k].verifiedAt == run[i].revision
    requires forall n, d :: i <= n < j && d in run[i].memos[k].deps ==> !MovedAt(run, n, d)
    ensures k in run[j].memos && run[j].memos[k].value == run[i].memos[k].value
    ensures run[j].memos[k].deps == run[i].memos[k].deps
    ensures forall n :: i <= n < j ==> Grew(run[n], run[n + 1]) && !Ran(run[n], run[n + 1], k)
  {
    hide Inv, Kept;
    var m, v := run[i].memos[k], run[i].revision;
    ConfirmedIsKept(h, run[i], k);
    KeptThrough(h.rank, run, i, j, k, v);
    KeptSays(h.rank, run[j], k, m, v);
    forall n | i <= n < j ensures Grew(run[n], run[n + 1]) && !Ran(run[n], run[n + 1], k) {
      KeptThrough(h.rank, run, i, n, k, v);
      assert NextAt(h.rank, run, n);
      assert forall d :: d in m.deps ==> !MovedAt(run, n, d);
      KeptStep(h.rank, run[n], run[n + 1], k, m, v);
    }
  }

  lemma KeptSays<V>(rank: Key -> nat, s: Store<V>, k: Key, m: Memo<V>, v: nat)
    requires Kept(rank, s, k, m, v)
    ensures k in s.memos && s.memos[k].value == m.value && s.memos[k].deps == m.deps
  {}

  // A key is executed only if some dependency it had recorded moved since the key
  // was last confirmed, or since any time it was.
  lemma RunsOnlyOnChange<V(!new)>(h: Host<V>, run: seq<Store<V>>, i: nat, j: nat, k: Key)
    requires Life(h.rank, run) && i <= j < |run| - 1 && Inv(h, run[i])
    requires k in run[i].memos && run[i].memos[k].verifiedAt == run[i].revision
    requires Grew(run[j], run[j + 1]) && Ran(run[j], run[j + 1], k)
    ensures exists n, d :: i <= n <= j && d in run[i].memos[k].deps && MovedAt(run, n, d)
  {
    hide Inv, MovedAt;
    if forall n, d :: i <= n < j + 1 && d in run[i].memos[k].deps ==> !MovedAt(run, n, d) {
      KeepsWhileDepsKeep(h, run, i, j + 1, k);
    }
  }

  // ---- What a confirmed key has read ----

  // What a key confirmed now was computed from is what its dependencies hold now.
  lemma ConfirmedHasRead<V>(h: Host<V>, s: Store<V>, k: Key)
    requires Inv(h, s) && k in s.memos && s.memos[k].verifiedAt == s.revision
    ensures k in s.read && |s.read[k]| == |s.memos[k].deps|
    ensures forall i :: 0 <= i < |s.memos[k].deps| ==> HoldsRead(h, s, k, i)
  {
    assert MemoHolds(h, s, k, s.memos[k], s.read[k]);
    forall i | 0 <= i < |s.memos[k].deps| ensures HoldsRead(h, s, k, i) {
      assert DepHolds(h, s, k, s.revision, s.memos[k].deps[i], s.read[k][i]);
      assert Stamp(s, s.memos[k].deps[i]) <= s.revision;
    }
  }

  predicate HoldsRead<V(==)>(h: Host<V>, s: Store<V>, k: Key, i: nat)
    requires k in s.memos && k in s.read && |s.read[k]| == |s.memos[k].deps| && i < |s.read[k]|
  {
    var d := s.memos[k].deps[i];
    (h.rank(d) > 0 ==> d in s.memos) && Held(h, s, d) == s.read[k][i]
  }

  lemma {:induction false} UnrunIsSame<V>(rank: Key -> nat, run: seq<Store<V>>, i: nat, j: nat, k: Key)
    requires Life(rank, run) && i <= j < |run| && k in run[i].memos
    requires forall n :: i <= n < j ==> Grew(run[n], run[n + 1]) && !Ran(run[n], run[n + 1], k)
    ensures k in run[j].memos && ReadOf(run[j], k) == ReadOf(run[i], k)
    ensures run[j].memos[k].value == run[i].memos[k].value && run[j].memos[k].deps == run[i].memos[k].deps
    decreases j
  {
    if i < j {
      UnrunIsSame(rank, run, i, j - 1, k);
      assert NextAt(rank, run, j - 1);
      var s0, s1 := run[j - 1], run[j];
      assert run[j - 1 + 1] == s1;
      if !Stamped(rank, s0, s1) {
        var below :| Evolves(rank, s0, s1, below);
        assert Stepped(MemoAt(s0, k), s1.memos[k], Ran(s0, s1, k), s1.revision);
      }
    }
  }

  // No stale reuse, over any history: a key confirmed at two moments without having run
  // in between has dependencies that hold, each, what they held. So a key whose
  // dependency holds another value than before has run.
  lemma ReuseIsJustified<V(!new)>(h0: Host<V>, h1: Host<V>, run: seq<Store<V>>, i: nat, j: nat, k: Key, d: Key)
    requires Life(h0.rank, run) && i <= j < |run| && h1.rank == h0.rank
    requires Inv(h0, run[i]) && k in run[i].memos && run[i].memos[k].verifiedAt == run[i].revision
    requires Inv(h1, run[j]) && k in run[j].memos && run[j].memos[k].verifiedAt == run[j].revision
    requires forall n :: i <= n < j ==> Grew(run[n], run[n + 1]) && !Ran(run[n], run[n + 1], k)
    requires d in run[i].memos[k].deps
    ensures h0.rank(d) > 0 ==> d in run[i].memos && d in run[j].memos
    ensures Held(h1, run[j], d) == Held(h0, run[i], d)
  {
    hide Inv, Life;
    UnrunIsSame(h0.rank, run, i, j, k);
    ConfirmedHasRead(h0, run[i], k);
    ConfirmedHasRead(h1, run[j], k);
    var n :| 0 <= n < |run[i].memos[k].deps| && run[i].memos[k].deps[n] == d;
    assert HoldsRead(h0, run[i], k, n) && HoldsRead(h1, run[j], k, n);
  }

  // ---- What a confirmed query has confirmed ----

  lemma {:induction false} ReachedIsConfirmed<V(!new)>(h: Host<V>, s: Store<V>, k: Key, i: nat, target: Key)
    requires Pure(h) && Inv(h, s) && k in s.memos && s.memos[k].verifiedAt == s.revision
    requires k in s.read && |s.read[k]| == |s.memos[k].deps| && i <= |s.read[k]|
    requires Reaches(h, k, s.read[k][..i], target)
    ensures target in s.memos && s.memos[target].verifiedAt == s.revision
    decreases h.rank(k), |s.read[k]| - i
  {
    var m, read := s.memos[k], s.read[k];
    assert MemoHolds(h, s, k, m, read);
    assert !h.step(k, read[..i]).Settled();
    assert read[..|read|] == read;
    if i < |read| {
      var d := m.deps[i];
      assert DepHolds(h, s, k, m.verifiedAt, d, read[i]);
      assert Follows(h.step(k, read[..i]), d, m.value);
      assert read[..i] + [read[i]] == read[..i + 1];
      if h.step(k, read[..i]).Input? {
        ReachedIsConfirmed(h, s, k, i + 1, target);
      } else {
        FreshEval(h, s, d);
        RunIsKnown(h, d, []);
        if Needs(h, d, target) {
          NeededIsConfirmed(h, s, d, target);
        } else {
          ReachedIsConfirmed(h, s, k, i + 1, target);
        }
      }
    }
  }

  // Once a query is confirmed, so is everything evaluating it from scratch computes.
  lemma {:induction false} NeededIsConfirmed<V(!new)>(h: Host<V>, s: Store<V>, k: Key, target: Key)
    requires Pure(h) && Inv(h, s) && k in s.memos && s.memos[k].verifiedAt == s.revision
    requires Needs(h, k, target)
    ensures target in s.memos && s.memos[target].verifiedAt == s.revision
    decreases h.rank(k), |s.read[k]| + 1
  {
    assert MemoHolds(h, s, k, s.memos[k], s.read[k]);
    assert s.read[k][..0] == [];
    if target != k { ReachedIsConfirmed(h, s, k, 0, target); }
  }

  // Asking again with no edit in between executes nothing at all.
  lemma AskingAgainRunsNothing<V(!new)>(h: Host<V>, s0: Store<V>, s1: Store<V>, k: Key, below: nat)
    requires Pure(h) && Inv(h, s0) && k in s0.memos && s0.memos[k].verifiedAt == s0.revision
    requires Serves(h, h, s0, s1, k, below)
    ensures s1.log == s0.log
  {
    if |s0.log| < |s1.log| {
      var ran := s1.log[|s0.log|];
      assert Ran(s0, s1, ran);
      NeededIsConfirmed(h, s0, k, ran);
      ConfirmedStays(h.rank, s0, s1, below, ran);
    }
    assert s1.log == s1.log[..|s0.log|];
  }
}
