// The engine's persistent state as a value, the invariant every step keeps, and
// how the state may evolve within one revision.

module EngineStore {
  import opened QueryModel

  // One memo: the stored value, when it last changed, when it was last
  // confirmed, and what it read, in fetch order.
  datatype Memo<+V> = Memo(value: V, changedAt: nat, verifiedAt: nat, deps: seq<Key>)

  // `read` remembers the answers each memo was computed from; the engine itself
  // does not keep them.
  datatype Store<V> = Store(
    revision: nat,
    inputChanged: map<Key, nat>,
    memos: map<Key, Memo<V>>,
    log: seq<Key>,
    read: map<Key, seq<V>>)

  // The revision at which a dependency last changed, as revalidation sees it.
  function Stamp<V>(s: Store<V>, d: Key): nat {
    if d in s.memos then s.memos[d].changedAt
    else if d in s.inputChanged then s.inputChanged[d]
    else 0
  }

  function MemoAt<V>(s: Store<V>, k: Key): Option<Memo<V>> {
    if k in s.memos then Some(s.memos[k]) else None
  }

  // ---- The invariant ----

  // No stamp lies in the future, and nothing changed after it was confirmed.
  ghost predicate Bounded<V>(s: Store<V>) {
    && (forall d :: d in s.inputChanged ==> s.inputChanged[d] <= s.revision)
    && (forall k :: k in s.memos ==> s.memos[k].changedAt <= s.memos[k].verifiedAt <= s.revision)
  }

  // Inputs have rank 0, memos belong to derived queries.
  ghost predicate Sorted<V>(rank: Key -> nat, s: Store<V>) {
    && (forall d :: d in s.inputChanged ==> rank(d) == 0)
    && (forall k :: k in s.memos ==> rank(k) > 0)
  }

  // The value a dependency holds now.
  function Held<V>(h: Host<V>, s: Store<V>, d: Key): V
    requires h.rank(d) > 0 ==> d in s.memos
  {
    if h.rank(d) > 0 then s.memos[d].value else h.input(d)
  }

  // A dependency is verified at least as late as its dependent, and while its
  // stamp does not exceed the dependent's it still holds the value that was read.
  ghost predicate DepHolds<V>(h: Host<V>, s: Store<V>, owner: Key, verifiedAt: nat, d: Key, was: V) {
    && h.rank(d) < h.rank(owner)
    && (h.rank(d) > 0 ==> d in s.memos && verifiedAt <= s.memos[d].verifiedAt)
    && (Stamp(s, d) <= verifiedAt ==> Held(h, s, d) == was)
  }

  ghost predicate DepsHold<V>(h: Host<V>, s: Store<V>, owner: Key, verifiedAt: nat, deps: seq<Key>, read: seq<V>) {
    && |read| == |deps|
    && forall i :: 0 <= i < |deps| ==> DepHolds(h, s, owner, verifiedAt, deps[i], read[i])
  }

  ghost predicate Follows<V>(step: Step<V>, d: Key, value: V) {
    step == Query(d) || step == Input(d) || step == Fixed(value) || step.Unclaimed?
  }

  ghost predicate Concludes<V>(step: Step<V>, value: V) {
    step == Ret(value) || step == Fixed(value) || step.Unclaimed?
  }

  // The claimed program of `k`, fed `read`, asks `deps` in order and ends in `value`.
  ghost predicate Replays<V>(h: Host<V>, k: Key, read: seq<V>, deps: seq<Key>, value: V) {
    && |read| == |deps|
    && (forall i :: 0 <= i < |deps| ==> Follows(h.step(k, read[..i]), deps[i], value))
    && Concludes(h.step(k, read), value)
  }

  ghost predicate MemoHolds<V>(h: Host<V>, s: Store<V>, k: Key, m: Memo<V>, read: seq<V>) {
    && Replays(h, k, read, m.deps, m.value)
    && DepsHold(h, s, k, m.verifiedAt, m.deps, read)
  }

  // `h` is what is claimed of the host at the current inputs.
  ghost predicate Inv<V>(h: Host<V>, s: Store<V>) {
    && Bounded(s)
    && Sorted(h.rank, s)
    && (forall k :: k in s.memos ==> k in s.read && MemoHolds(h, s, k, s.memos[k], s.read[k]))
  }

  // ---- Evolution within a revision ----

  // What may happen to one memo: nothing, confirmation, or (`ran`) a
  // computation, where an equal value keeps its old change stamp.
  ghost predicate Stepped<V>(old_: Option<Memo<V>>, now: Memo<V>, ran: bool, revision: nat) {
    match old_
    case None => ran && now.verifiedAt == now.changedAt == revision
    case Some(m) =>
      if ran then
        && m.verifiedAt < revision && now.verifiedAt == revision
        && now.changedAt == (if now.value == m.value then m.changedAt else revision)
      else
        now == m || (m.verifiedAt < revision && now == m.(verifiedAt := revision))
  }

  // Why a key was executed: it had no memo, or one of the dependencies it had
  // recorded carries a stamp later than the memo's verification.
  ghost predicate Provoked<V>(s0: Store<V>, s1: Store<V>, k: Key) {
    k in s0.memos ==>
      && s0.memos[k].verifiedAt < s0.revision
      && exists d :: d in s0.memos[k].deps && s0.memos[k].verifiedAt < Stamp(s1, d)
  }

  predicate Grew<V>(s0: Store<V>, s1: Store<V>) {
    |s0.log| <= |s1.log| && s1.log[..|s0.log|] == s0.log
  }

  // The keys executed on the way from `s0` to `s1`.
  predicate Ran<V>(s0: Store<V>, s1: Store<V>, k: Key)
    requires Grew(s0, s1)
  {
    exists i :: |s0.log| <= i < |s1.log| && s1.log[i] == k
  }

  ghost predicate RunsOnce<V>(s0: Store<V>, s1: Store<V>)
    requires Grew(s0, s1)
  {
    forall i, j :: |s0.log| <= i < j < |s1.log| ==> s1.log[i] != s1.log[j]
  }

  // A key that ran is derived, of rank below `below`, confirmed now, and was provoked.
  ghost predicate RunsWithCause<V>(rank: Key -> nat, s0: Store<V>, s1: Store<V>, below: nat)
    requires Grew(s0, s1)
  {
    forall k :: Ran(s0, s1, k) ==>
      0 < rank(k) < below && k in s1.memos && s1.memos[k].verifiedAt == s1.revision && Provoked(s0, s1, k)
  }

  ghost predicate MemosStep<V>(s0: Store<V>, s1: Store<V>)
    requires Grew(s0, s1)
  {
    && (forall k :: k in s0.memos ==> k in s1.memos)
    && (forall k :: k in s1.memos ==> Stepped(MemoAt(s0, k), s1.memos[k], Ran(s0, s1, k), s1.revision))
  }

  // What a memo was computed from stays with it until it is computed again.
  function ReadOf<V>(s: Store<V>, k: Key): Option<seq<V>> { if k in s.read then Some(s.read[k]) else None }

  ghost predicate ReadsStay<V>(s0: Store<V>, s1: Store<V>)
    requires Grew(s0, s1)
  {
    forall k :: Ran(s0, s1, k) || ReadOf(s1, k) == ReadOf(s0, k)
  }

  ghost predicate Confined<V>(rank: Key -> nat, s0: Store<V>, s1: Store<V>, below: nat) {
    forall k :: below <= rank(k) ==> MemoAt(s0, k) == MemoAt(s1, k)
  }

  // From `s0` to `s1` within one revision, touching only keys of rank below `below`.
  ghost predicate Evolves<V>(rank: Key -> nat, s0: Store<V>, s1: Store<V>, below: nat) {
    && s1.revision == s0.revision && s1.inputChanged == s0.inputChanged
    && Grew(s0, s1)
    && RunsOnce(s0, s1)
    && RunsWithCause(rank, s0, s1, below)
    && MemosStep(s0, s1)
    && ReadsStay(s0, s1)
    && Confined(rank, s0, s1, below)
  }

  // ---- Evolution composes ----

  lemma EvolvesRefl<V>(rank: Key -> nat, s: Store<V>, below: nat)
    ensures Evolves(rank, s, s, below)
  {}

  lemma StampGrows<V>(s0: Store<V>, s1: Store<V>, d: Key)
    requires Bounded(s0) && s1.revision == s0.revision && s1.inputChanged == s0.inputChanged
    requires Grew(s0, s1) && MemosStep(s0, s1)
    ensures Stamp(s0, d) <= Stamp(s1, d)
  {
    if d in s1.memos { assert Stepped(MemoAt(s0, d), s1.memos[d], Ran(s0, s1, d), s1.revision); }
  }

  lemma RanSplits<V>(s0: Store<V>, s1: Store<V>, s2: Store<V>, k: Key)
    requires Grew(s0, s1) && Grew(s1, s2)
    ensures Grew(s0, s2)
    ensures Ran(s0, s2, k) <==> Ran(s0, s1, k) || Ran(s1, s2, k)
  {
    assert s2.log[..|s0.log|] == s1.log[..|s0.log|];
    if Ran(s0, s1, k) {
      var i :| |s0.log| <= i < |s1.log| && s1.log[i] == k;
      assert s2.log[i] == k;
    }
  }

  // Nothing that ran, or is confirmed now, runs again in this revision.
  lemma ConfirmedStays<V>(rank: Key -> nat, s0: Store<V>, s1: Store<V>, below: nat, k: Key)
    requires Evolves(rank, s0, s1, below)
    requires k in s0.memos && s0.memos[k].verifiedAt == s0.revision
    ensures !Ran(s0, s1, k) && k in s1.memos && s1.memos[k] == s0.memos[k]
  {
    assert Ran(s0, s1, k) ==> Provoked(s0, s1, k);
    assert Stepped(MemoAt(s0, k), s1.memos[k], Ran(s0, s1, k), s1.revision);
  }

  lemma SteppedComposes<V>(a: Option<Memo<V>>, b: Memo<V>, c: Memo<V>, ran1: bool, ran2: bool, revision: nat)
    requires Stepped(a, b, ran1, revision) && Stepped(Some(b), c, ran2, revision)
    ensures Stepped(a, c, ran1 || ran2, revision)
  {}

  lemma MemosStepCompose<V>(rank: Key -> nat, s0: Store<V>, s1: Store<V>, s2: Store<V>, b1: nat, b2: nat)
    requires Evolves(rank, s0, s1, b1) && Evolves(rank, s1, s2, b2)
    ensures Grew(s0, s2) && MemosStep(s0, s2)
  {
    RanSplits(s0, s1, s2, Key(0, 0));
    forall k | k in s2.memos
      ensures Stepped(MemoAt(s0, k), s2.memos[k], Ran(s0, s2, k), s2.revision)
    {
      RanSplits(s0, s1, s2, k);
      assert Stepped(MemoAt(s1, k), s2.memos[k], Ran(s1, s2, k), s2.revision);
      if k in s1.memos {
        assert Stepped(MemoAt(s0, k), s1.memos[k], Ran(s0, s1, k), s1.revision);
        SteppedComposes(MemoAt(s0, k), s1.memos[k], s2.memos[k], Ran(s0, s1, k), Ran(s1, s2, k), s2.revision);
      } else {
        assert !Ran(s0, s1, k);
      }
    }
  }

  lemma ProvokedComposes<V>(rank: Key -> nat, s0: Store<V>, s1: Store<V>, s2: Store<V>, b1: nat, b2: nat, k: Key)
    requires Bounded(s1)
    requires Evolves(rank, s0, s1, b1) && Evolves(rank, s1, s2, b2)
    requires Ran(s0, s1, k) || Ran(s1, s2, k)
    ensures Provoked(s0, s2, k)
  {
    if k in s0.memos {
      if Ran(s0, s1, k) {
        assert Provoked(s0, s1, k);
        var d :| d in s0.memos[k].deps && s0.memos[k].verifiedAt < Stamp(s1, d);
        StampGrows(s1, s2, d);
      } else {
        assert Provoked(s1, s2, k);
        assert Stepped(MemoAt(s0, k), s1.memos[k], false, s1.revision);
      }
    }
  }

  lemma RunsCompose<V>(rank: Key -> nat, s0: Store<V>, s1: Store<V>, s2: Store<V>, b1: nat, b2: nat, b: nat)
    requires Bounded(s1) && b1 <= b && b2 <= b
    requires Evolves(rank, s0, s1, b1) && Evolves(rank, s1, s2, b2)
    ensures Grew(s0, s2) && RunsWithCause(rank, s0, s2, b)
  {
    RanSplits(s0, s1, s2, Key(0, 0));
    forall k | Ran(s0, s2, k)
      ensures 0 < rank(k) < b && k in s2.memos && s2.memos[k].verifiedAt == s2.revision && Provoked(s0, s2, k)
    {
      RanSplits(s0, s1, s2, k);
      ProvokedComposes(rank, s0, s1, s2, b1, b2, k);
      if !Ran(s1, s2, k) { ConfirmedStays(rank, s1, s2, b2, k); }
    }
  }

  lemma RunsOnceComposes<V>(rank: Key -> nat, s0: Store<V>, s1: Store<V>, s2: Store<V>, b1: nat, b2: nat)
    requires Evolves(rank, s0, s1, b1) && Evolves(rank, s1, s2, b2)
    ensures Grew(s0, s2) && RunsOnce(s0, s2)
  {
    RanSplits(s0, s1, s2, Key(0, 0));
    forall i, j | |s0.log| <= i < j < |s2.log| ensures s2.log[i] != s2.log[j] {
      if i < |s1.log| {
        assert s1.log[i] == s2.log[i] && Ran(s0, s1, s1.log[i]);
        if j < |s1.log| {
          assert s1.log[j] == s2.log[j];
        } else {
          ConfirmedStays(rank, s1, s2, b2, s1.log[i]);
        }
      }
    }
  }

  lemma ReadsStayCompose<V>(rank: Key -> nat, s0: Store<V>, s1: Store<V>, s2: Store<V>, b1: nat, b2: nat)
    requires Evolves(rank, s0, s1, b1) && Evolves(rank, s1, s2, b2)
    ensures Grew(s0, s2) && ReadsStay(s0, s2)
  {
    RanSplits(s0, s1, s2, Key(0, 0));
    forall k ensures Ran(s0, s2, k) || ReadOf(s2, k) == ReadOf(s0, k) {
      RanSplits(s0, s1, s2, k);
    }
  }

  lemma EvolvesTrans<V>(rank: Key -> nat, s0: Store<V>, s1: Store<V>, s2: Store<V>, b1: nat, b2: nat, b: nat)
    requires Bounded(s1) && b1 <= b && b2 <= b
    requires Evolves(rank, s0, s1, b1) && Evolves(rank, s1, s2, b2)
    ensures Evolves(rank, s0, s2, b)
  {
    RunsOnceComposes(rank, s0, s1, s2, b1, b2);
    RunsCompose(rank, s0, s1, s2, b1, b2, b);
    MemosStepCompose(rank, s0, s1, s2, b1, b2);
    ReadsStayCompose(rank, s0, s1, s2, b1, b2);
  }

  lemma EvolvesWiden<V>(rank: Key -> nat, s0: Store<V>, s1: Store<V>, b1: nat, b: nat)
    requires Evolves(rank, s0, s1, b1) && b1 <= b
    ensures Evolves(rank, s0, s1, b)
  {}

  // ---- The invariant survives evolution ----

  lemma DepSurvives<V>(h: Host<V>, s0: Store<V>, s1: Store<V>, below: nat, owner: Key, at: nat, d: Key, was: V)
    requires Bounded(s0) && Sorted(h.rank, s0) && Evolves(h.rank, s0, s1, below)
    requires at <= s0.revision && DepHolds(h, s0, owner, at, d, was)
    ensures DepHolds(h, s1, owner, at, d, was)
  {
    if d in s1.memos {
      assert Stepped(MemoAt(s0, d), s1.memos[d], Ran(s0, s1, d), s1.revision);
    }
  }

  // A memo stays justified when the state evolves around it.
  lemma MemoSurvives<V>(h: Host<V>, s0: Store<V>, s1: Store<V>, below: nat, k: Key, m: Memo<V>, read: seq<V>)
    requires Bounded(s0) && Sorted(h.rank, s0) && Evolves(h.rank, s0, s1, below)
    requires m.verifiedAt <= s0.revision && MemoHolds(h, s0, k, m, read)
    ensures MemoHolds(h, s1, k, m, read)
  {
    forall i | 0 <= i < |m.deps| ensures DepHolds(h, s1, k, m.verifiedAt, m.deps[i], read[i]) {
      DepSurvives(h, s0, s1, below, k, m.verifiedAt, m.deps[i], read[i]);
    }
  }

  // ---- A confirmed memo is the from-scratch value ----

  ghost predicate Confirmed<V>(h: Host<V>, s: Store<V>, d: Key) {
    h.rank(d) > 0 ==> d in s.memos && s.memos[d].verifiedAt == s.revision
  }

  // One step of the program of `k` past a dependency that still holds what was read.
  lemma RunSteps<V(!new)>(h: Host<V>, s: Store<V>, k: Key, i: nat)
    requires WellRanked(h) && Inv(h, s) && k in s.memos
    requires i < |s.memos[k].deps|
    requires Stamp(s, s.memos[k].deps[i]) <= s.memos[k].verifiedAt
    requires h.rank(s.memos[k].deps[i]) > 0 ==>
      s.memos[k].deps[i] in s.memos
      && Agrees(Eval(h, s.memos[k].deps[i]), s.memos[s.memos[k].deps[i]].value)
    ensures |s.read[k]| == |s.memos[k].deps|
    ensures var now := Run(h, k, s.read[k][..i]);
      || now.Unknown?
      || (h.step(k, s.read[k][..i]).Fixed? && now == Value(s.memos[k].value))
      || now == Run(h, k, s.read[k][..i + 1])
  {
    var m, read := s.memos[k], s.read[k];
    assert MemoHolds(h, s, k, m, read);
    assert DepHolds(h, s, k, m.verifiedAt, m.deps[i], read[i]);
    assert Follows(h.step(k, read[..i]), m.deps[i], m.value);
    assert read[..i] + [read[i]] == read[..i + 1];
  }

  lemma {:induction false} FreshRun<V(!new)>(h: Host<V>, s: Store<V>, k: Key, i: nat)
    requires WellRanked(h) && Inv(h, s) && k in s.memos && s.memos[k].verifiedAt == s.revision
    requires k in s.read && |s.read[k]| == |s.memos[k].deps| && i <= |s.read[k]|
    ensures Agrees(Run(h, k, s.read[k][..i]), s.memos[k].value)
    decreases h.rank(k), |s.read[k]| - i
  {
    var m, read := s.memos[k], s.read[k];
    assert MemoHolds(h, s, k, m, read);
    if i < |read| {
      var d := m.deps[i];
      assert DepHolds(h, s, k, m.verifiedAt, d, read[i]);
      if h.rank(d) > 0 { FreshEval(h, s, d); }
      RunSteps(h, s, k, i);
      FreshRun(h, s, k, i + 1);
    } else {
      assert read[..i] == read;
    }
  }

  // Whatever a memo confirmed in this revision holds is what computing its key
  // from scratch on the current inputs gives.
  lemma {:induction false} FreshEval<V(!new)>(h: Host<V>, s: Store<V>, k: Key)
    requires WellRanked(h) && Inv(h, s) && k in s.memos && s.memos[k].verifiedAt == s.revision
    ensures Agrees(Eval(h, k), s.memos[k].value)
    decreases h.rank(k), |s.read[k]| + 1
  {
    assert MemoHolds(h, s, k, s.memos[k], s.read[k]);
    assert s.read[k][..0] == [];
    FreshRun(h, s, k, 0);
  }

  // If every dependency before `j` still holds and `j` now fails, so does the key.
  lemma {:induction false} StaleRunFails<V(!new)>(h: Host<V>, s: Store<V>, k: Key, i: nat, j: nat, file: nat)
    requires WellRanked(h) && Inv(h, s) && k in s.memos
    requires forall read :: !h.step(k, read).Fixed?
    requires i <= j < |s.memos[k].deps| && h.rank(s.memos[k].deps[j]) > 0
    requires forall n :: 0 <= n < j ==>
      Confirmed(h, s, s.memos[k].deps[n]) && Stamp(s, s.memos[k].deps[n]) <= s.memos[k].verifiedAt
    requires FailsAs(Eval(h, s.memos[k].deps[j]), file)
    ensures k in s.read && |s.read[k]| == |s.memos[k].deps|
    ensures FailsAs(Run(h, k, s.read[k][..i]), file)
    decreases j - i
  {
    var m, read := s.memos[k], s.read[k];
    assert MemoHolds(h, s, k, m, read);
    var d := m.deps[i];
    assert Follows(h.step(k, read[..i]), d, m.value);
    if i < j {
      if h.rank(d) > 0 { FreshEval(h, s, d); }
      RunSteps(h, s, k, i);
      StaleRunFails(h, s, k, i + 1, j, file);
    }
  }

  // While every dependency before `j` still holds, evaluating from scratch asks
  // for `j` as well.
  lemma {:induction false} PathToDep<V(!new)>(h: Host<V>, s: Store<V>, k: Key, i: nat, j: nat)
    requires WellRanked(h) && Inv(h, s) && k in s.memos
    requires i <= j < |s.memos[k].deps| && h.rank(s.memos[k].deps[j]) > 0
    requires forall n :: 0 <= n < j ==>
      Confirmed(h, s, s.memos[k].deps[n]) && Stamp(s, s.memos[k].deps[n]) <= s.memos[k].verifiedAt
    ensures k in s.read && |s.read[k]| == |s.memos[k].deps|
    ensures Reaches(h, k, s.read[k][..i], s.memos[k].deps[j])
    decreases j - i
  {
    var m, read := s.memos[k], s.read[k];
    assert MemoHolds(h, s, k, m, read);
    var d := m.deps[i];
    assert Follows(h.step(k, read[..i]), d, m.value);
    if i < j {
      assert DepHolds(h, s, k, m.verifiedAt, d, read[i]);
      if h.rank(d) > 0 { FreshEval(h, s, d); }
      assert read[..i] + [read[i]] == read[..i + 1];
      PathToDep(h, s, k, i + 1, j);
    }
  }

  // ---- The two updates the engine makes ----

  // Every recorded dependency is confirmed and none changed since: the memo may
  // be confirmed as it is.
  lemma ConfirmKeepsInv<V(!new)>(h: Host<V>, s: Store<V>, k: Key)
    requires Inv(h, s) && k in s.memos && s.memos[k].verifiedAt < s.revision
    requires forall d :: d in s.memos[k].deps ==> Confirmed(h, s, d) && Stamp(s, d) <= s.memos[k].verifiedAt
    ensures var s1 := s.(memos := s.memos[k := s.memos[k].(verifiedAt := s.revision)]);
      Inv(h, s1) && Evolves(h.rank, s, s1, h.rank(k) + 1)
  {
    var m := s.memos[k];
    var m1 := m.(verifiedAt := s.revision);
    var s1 := s.(memos := s.memos[k := m1]);
    assert Evolves(h.rank, s, s1, h.rank(k) + 1);
    assert MemoHolds(h, s, k, m, s.read[k]);
    forall i | 0 <= i < |m.deps| ensures DepHolds(h, s1, k, s.revision, m.deps[i], s.read[k][i]) {
      assert DepHolds(h, s, k, m.verifiedAt, m.deps[i], s.read[k][i]);
    }
    forall j | j in s1.memos ensures j in s1.read && MemoHolds(h, s1, j, s1.memos[j], s1.read[j]) {
      if j != k {
        assert MemoHolds(h, s, j, s.memos[j], s.read[j]);
        MemoSurvives(h, s, s1, h.rank(k) + 1, j, s.memos[j], s.read[j]);
      }
    }
  }

  // A key may be recomputed when it is new or provoked.
  ghost predicate MayRun<V>(s: Store<V>, k: Key) {
    k in s.memos ==>
      && s.memos[k].verifiedAt < s.revision
      && exists d :: d in s.memos[k].deps && s.memos[k].verifiedAt < Stamp(s, d)
  }

  // The store after `k` was computed to `value` from `deps`, which answered `read`.
  function Installed<V(==)>(s: Store<V>, k: Key, value: V, deps: seq<Key>, read: seq<V>): Store<V> {
    var changedAt := if k in s.memos && s.memos[k].value == value then s.memos[k].changedAt else s.revision;
    s.(memos := s.memos[k := Memo(value, changedAt, s.revision, deps)],
       log := s.log + [k],
       read := s.read[k := read])
  }

  lemma InstallEvolves<V>(h: Host<V>, s: Store<V>, k: Key, value: V, deps: seq<Key>, read: seq<V>)
    requires Bounded(s) && h.rank(k) > 0 && MayRun(s, k)
    requires forall d :: d in deps ==> h.rank(d) < h.rank(k)
    requires k in s.memos ==> forall d :: d in s.memos[k].deps ==> h.rank(d) < h.rank(k)
    ensures Evolves(h.rank, s, Installed(s, k, value, deps, read), h.rank(k) + 1)
  {
    var s1 := Installed(s, k, value, deps, read);
    assert s1.log[|s.log|] == k;
    assert Provoked(s, s1, k) by {
      if k in s.memos {
        var d :| d in s.memos[k].deps && s.memos[k].verifiedAt < Stamp(s, d);
        assert Stamp(s1, d) == Stamp(s, d);
      }
    }
    forall j | j in s1.memos
      ensures Stepped(MemoAt(s, j), s1.memos[j], Ran(s, s1, j), s1.revision)
    {
      assert Ran(s, s1, j) <==> j == k;
    }
  }

  lemma InstallKeepsInv<V(!new)>(h: Host<V>, s: Store<V>, k: Key, value: V, deps: seq<Key>, read: seq<V>)
    requires Inv(h, s) && h.rank(k) > 0 && MayRun(s, k)
    requires Replays(h, k, read, deps, value)
    requires forall i :: 0 <= i < |deps| ==> DepHolds(h, s, k, s.revision, deps[i], read[i])
    ensures var s1 := Installed(s, k, value, deps, read);
      Inv(h, s1) && Evolves(h.rank, s, s1, h.rank(k) + 1)
  {
    var s1 := Installed(s, k, value, deps, read);
    forall d | d in deps ensures h.rank(d) < h.rank(k) {
      var i :| 0 <= i < |deps| && deps[i] == d;
      assert DepHolds(h, s, k, s.revision, deps[i], read[i]);
    }
    if k in s.memos { DepsLower(h, s, k); }
    InstallEvolves(h, s, k, value, deps, read);
    forall i | 0 <= i < |deps| ensures DepHolds(h, s1, k, s.revision, deps[i], read[i]) {
      assert DepHolds(h, s, k, s.revision, deps[i], read[i]);
      assert deps[i] in deps;
    }
    forall j | j in s1.memos ensures j in s1.read && MemoHolds(h, s1, j, s1.memos[j], s1.read[j]) {
      if j != k {
        assert MemoHolds(h, s, j, s.memos[j], s.read[j]);
        MemoSurvives(h, s, s1, h.rank(k) + 1, j, s.memos[j], s.read[j]);
      }
    }
  }

  lemma DepsLower<V>(h: Host<V>, s: Store<V>, k: Key)
    requires Inv(h, s) && k in s.memos
    ensures forall d :: d in s.memos[k].deps ==> h.rank(d) < h.rank(k) && (h.rank(d) > 0 ==> d in s.memos)
  {
    assert MemoHolds(h, s, k, s.memos[k], s.read[k]);
    forall d | d in s.memos[k].deps
      ensures h.rank(d) < h.rank(k) && (h.rank(d) > 0 ==> d in s.memos)
    {
      var i :| 0 <= i < |s.memos[k].deps| && s.memos[k].deps[i] == d;
      assert DepHolds(h, s, k, s.memos[k].verifiedAt, s.memos[k].deps[i], s.read[k][i]);
    }
  }

  // An input changed value and was stamped: no memo that read it can still be
  // confirmed without noticing.
  lemma BumpKeepsInv<V>(before: Host<V>, after: Host<V>, s: Store<V>, key: Key)
    requires Inv(before, s) && before.rank(key) == 0
    requires after == before.(input := after.input)
    requires forall d :: d != key ==> after.input(d) == before.input(d)
    ensures Inv(after, s.(revision := s.revision + 1, inputChanged := s.inputChanged[key := s.revision + 1]))
  {
    var s1 := s.(revision := s.revision + 1, inputChanged := s.inputChanged[key := s.revision + 1]);
    forall k | k in s1.memos ensures MemoHolds(after, s1, k, s1.memos[k], s1.read[k]) {
      var m, read := s.memos[k], s.read[k];
      assert MemoHolds(before, s, k, m, read);
      forall i | 0 <= i < |m.deps| ensures DepHolds(after, s1, k, m.verifiedAt, m.deps[i], read[i]) {
        assert DepHolds(before, s, k, m.verifiedAt, m.deps[i], read[i]);
      }
    }
  }
}
