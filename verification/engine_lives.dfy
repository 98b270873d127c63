// The life of an engine: the states it passes through as inputs are edited and
// queries are asked.

module EngineLives {
  import opened QueryModel
  import opened EngineStore

  // Inputs were edited and stamped; nothing was asked.
  ghost predicate Stamped<V>(rank: Key -> nat, s0: Store<V>, s1: Store<V>) {
    && s0.revision < s1.revision
    && s1.memos == s0.memos && s1.read == s0.read && s1.log == s0.log
    && (forall d :: d in s1.inputChanged ==> rank(d) == 0)
  }

  // Queries were asked at one revision.
  ghost predicate Asked<V>(rank: Key -> nat, s0: Store<V>, s1: Store<V>) {
    exists below :: Evolves(rank, s0, s1, below)
  }

  // One step in the life of an engine.
  ghost predicate Next<V>(rank: Key -> nat, s0: Store<V>, s1: Store<V>) {
    Stamped(rank, s0, s1) || Asked(rank, s0, s1)
  }

  ghost predicate NextAt<V>(rank: Key -> nat, run: seq<Store<V>>, n: nat)
    requires n + 1 < |run|
  {
    Next(rank, run[n], run[n + 1])
  }

  ghost predicate Life<V>(rank: Key -> nat, run: seq<Store<V>>) {
    forall n :: 0 <= n < |run| - 1 ==> NextAt(rank, run, n)
  }

  // In this step the query changed value, or the input was edited.
  ghost predicate Moved<V>(s0: Store<V>, s1: Store<V>, d: Key) {
    if d in s0.memos then d in s1.memos && s1.memos[d].value != s0.memos[d].value
    else Stamp(s1, d) != Stamp(s0, d)
  }

  ghost predicate MovedAt<V>(run: seq<Store<V>>, n: nat, d: Key)
    requires n + 1 < |run|
  {
    Moved(run[n], run[n + 1], d)
  }

  lemma AskingIsAStep<V>(rank: Key -> nat, s0: Store<V>, s1: Store<V>, below: nat)
    requires Evolves(rank, s0, s1, below)
    ensures Next(rank, s0, s1)
  {}

  lemma LifeGoesOn<V>(rank: Key -> nat, run: seq<Store<V>>, s: Store<V>)
    requires Life(rank, run) && run != [] && Next(rank, run[|run| - 1], s)
    ensures Life(rank, run + [s])
  {
    forall n | 0 <= n < |run| ensures NextAt(rank, run + [s], n) {
      assert n < |run| - 1 ==> NextAt(rank, run, n);
    }
  }
}
