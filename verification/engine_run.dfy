// Running one query's program: what is known after some of its answers are in.

module EngineRun {
  import opened QueryModel
  import opened EngineStore

  // The answers read so far are held by confirmed dependencies.
  ghost predicate ReadsHold<V>(h: Host<V>, s: Store<V>, key: Key, deps: seq<Key>, read: seq<V>) {
    && |read| == |deps|
    && forall i :: 0 <= i < |deps| ==>
         h.rank(deps[i]) < h.rank(key) && Confirmed(h, s, deps[i]) && Held(h, s, deps[i]) == read[i]
  }

  // The claimed program asked for the same keys, or was settled on the way.
  ghost predicate Tracks<V>(h: Host<V>, key: Key, deps: seq<Key>, read: seq<V>) {
    && |read| == |deps|
    && forall i :: 0 <= i < |deps| ==> Tracked(h, key, deps, read, i)
  }

  ghost predicate Tracked<V>(h: Host<V>, key: Key, deps: seq<Key>, read: seq<V>, i: nat)
    requires i < |deps| == |read|
  {
    var step := h.step(key, read[..i]);
    step == Query(deps[i]) || step == Input(deps[i]) || (step.Settled() && h.step(key, read) == step)
  }

  // Evaluation from scratch passes through the same answers.
  ghost predicate OnPath<V(!new)>(h: Host<V>, key: Key, read: seq<V>)
    requires WellRanked(h)
  {
    Eval(h, key).Unknown? || Eval(h, key) == Run(h, key, read)
  }

  // Whatever is asked from here on, evaluation from scratch asks too.
  ghost predicate OnWay<V(!new)>(h: Host<V>, key: Key, read: seq<V>)
    requires WellRanked(h)
  {
    forall target :: Reaches(h, key, read, target) ==> Reaches(h, key, [], target)
  }

  // The host itself asked for `deps`, in order, on being given `read`.
  ghost predicate HostAsked<V>(host: Host<V>, key: Key, deps: seq<Key>, read: seq<V>) {
    && |read| == |deps|
    && forall i :: 0 <= i < |deps| ==>
         host.step(key, read[..i]) == Query(deps[i]) || host.step(key, read[..i]) == Input(deps[i])
  }

  lemma HostAskedStep<V>(host: Host<V>, key: Key, deps: seq<Key>, read: seq<V>, d: Key, v: V)
    requires HostAsked(host, key, deps, read)
    requires host.step(key, read) == Query(d) || host.step(key, read) == Input(d)
    ensures HostAsked(host, key, deps + [d], read + [v])
  {
    forall i | 0 <= i < |deps| + 1
      ensures var step := host.step(key, (read + [v])[..i]);
        step == Query((deps + [d])[i]) || step == Input((deps + [d])[i])
    {
      if i < |deps| {
        assert (read + [v])[..i] == read[..i];
      } else {
        assert (read + [v])[..i] == read;
      }
    }
  }

  ghost predicate Progress<V(!new)>(host: Host<V>, claims: Host<V>, s: Store<V>, key: Key, deps: seq<Key>, read: seq<V>)
    requires Describes(claims, host)
  {
    && HostAsked(host, key, deps, read)
    && Truthful(host, claims, key, read)
    && Tracks(claims, key, deps, read)
    && OnPath(claims, key, read)
    && OnWay(claims, key, read)
    && ReadsHold(claims, s, key, deps, read)
  }

  lemma ProgressStarts<V(!new)>(host: Host<V>, claims: Host<V>, s: Store<V>, key: Key)
    requires Describes(claims, host)
    ensures Progress(host, claims, s, key, [], [])
  {}

  lemma ReadsSurvive<V>(h: Host<V>, s0: Store<V>, s1: Store<V>, below: nat, key: Key, deps: seq<Key>, read: seq<V>)
    requires ReadsHold(h, s0, key, deps, read) && Evolves(h.rank, s0, s1, below)
    ensures ReadsHold(h, s1, key, deps, read)
  {
    forall i | 0 <= i < |deps|
      ensures Confirmed(h, s1, deps[i]) && Held(h, s1, deps[i]) == read[i]
    {
      assert Confirmed(h, s0, deps[i]);
      if h.rank(deps[i]) > 0 { ConfirmedStays(h.rank, s0, s1, below, deps[i]); }
    }
  }

  // One more answer: `v`, held by the confirmed dependency `d` the host asked for.
  lemma TracksStep<V(!new)>(claims: Host<V>, key: Key, deps: seq<Key>, read: seq<V>, d: Key, v: V)
    requires StaysSettled(claims) && Tracks(claims, key, deps, read)
    requires Fits(Query(d), claims.step(key, read)) || Fits(Input(d), claims.step(key, read))
    ensures Tracks(claims, key, deps + [d], read + [v])
  {
    forall i | 0 <= i < |deps| + 1 ensures Tracked(claims, key, deps + [d], read + [v], i) {
      if i < |deps| {
        assert Tracked(claims, key, deps, read, i);
        assert (read + [v])[..i] == read[..i];
        assert SettledAfter(claims, key, read, v);
      } else {
        assert (read + [v])[..i] == read;
        assert SettledAfter(claims, key, read, v);
      }
    }
  }

  lemma TruthfulStep<V(!new)>(host: Host<V>, claims: Host<V>, key: Key, read: seq<V>, v: V)
    requires WellRanked(claims) && Truthful(host, claims, key, read)
    requires Answers(host, claims, host.step(key, read), v)
    ensures Truthful(host, claims, key, read + [v])
  {
    forall i | 0 <= i < |read| + 1
      ensures Answers(host, claims, host.step(key, (read + [v])[..i]), (read + [v])[i])
    {
      if i < |read| {
        assert (read + [v])[..i] == read[..i];
      } else {
        assert (read + [v])[..i] == read;
      }
    }
  }

  lemma OnPathStep<V(!new)>(claims: Host<V>, key: Key, read: seq<V>, step: Step<V>, v: V)
    requires WellRanked(claims) && StaysSettled(claims) && OnPath(claims, key, read)
    requires Fits(step, claims.step(key, read))
    requires Answers(claims, claims, step, v)
    ensures OnPath(claims, key, read + [v])
  {
    var claimed := claims.step(key, read);
    if claimed.Fixed? {
      assert SettledAfter(claims, key, read, v);
      assert Run(claims, key, read + [v]) == Value(claimed.value) == Run(claims, key, read);
    } else {
      assert Run(claims, key, read).Unknown? || Run(claims, key, read) == Run(claims, key, read + [v]);
    }
  }

  lemma OnWayStep<V(!new)>(claims: Host<V>, key: Key, read: seq<V>, step: Step<V>, v: V)
    requires WellRanked(claims) && OnWay(claims, key, read)
    requires Fits(step, claims.step(key, read))
    requires Answers(claims, claims, step, v)
    ensures OnWay(claims, key, read + [v])
  {
    forall target | Reaches(claims, key, read + [v], target) ensures Reaches(claims, key, [], target) {
      assert Reaches(claims, key, read, target);
    }
  }

  lemma ReadsStep<V>(h: Host<V>, s: Store<V>, key: Key, deps: seq<Key>, read: seq<V>, d: Key)
    requires ReadsHold(h, s, key, deps, read) && h.rank(d) < h.rank(key) && Confirmed(h, s, d)
    ensures ReadsHold(h, s, key, deps + [d], read + [Held(h, s, d)])
  {}

  lemma ProgressSteps<V(!new)>(host: Host<V>, claims: Host<V>, s: Store<V>, key: Key, deps: seq<Key>, read: seq<V>,
        d: Key)
    requires Describes(claims, host) && Inv(claims, s) && Progress(host, claims, s, key, deps, read)
    requires host.step(key, read) == Query(d) || host.step(key, read) == Input(d)
    requires host.rank(key) > 0 && Confirmed(claims, s, d)
    ensures Progress(host, claims, s, key, deps + [d], read + [Held(claims, s, d)])
  {
    var v := Held(claims, s, d);
    if host.step(key, read).Query? { FreshEval(claims, s, d); }
    assert Fits(host.step(key, read), claims.step(key, read));
    HostAskedStep(host, key, deps, read, d, v);
    TruthfulStep(host, claims, key, read, v);
    TracksStep(claims, key, deps, read, d, v);
    OnPathStep(claims, key, read, host.step(key, read), v);
    OnWayStep(claims, key, read, host.step(key, read), v);
    ReadsStep(claims, s, key, deps, read, d);
  }

  // The dependency the host asked for failed, so the key fails the same way.
  lemma ProgressFails<V(!new)>(host: Host<V>, claims: Host<V>, s: Store<V>, key: Key, deps: seq<Key>, read: seq<V>,
        d: Key, file: nat)
    requires Describes(claims, host) && Progress(host, claims, s, key, deps, read)
    requires !Total(host)
    requires host.step(key, read) == Query(d) && FailsAs(Eval(claims, d), file)
    ensures FailsAs(Eval(claims, key), file)
  {
    assert Fits(host.step(key, read), claims.step(key, read));
    assert !claims.step(key, read).Fixed?;
  }

  lemma ProgressStops<V(!new)>(host: Host<V>, claims: Host<V>, s: Store<V>, key: Key, deps: seq<Key>, read: seq<V>,
        file: nat)
    requires Describes(claims, host) && Progress(host, claims, s, key, deps, read)
    requires host.step(key, read) == Fail(file)
    ensures !Total(host) && FailsAs(Eval(claims, key), file)
  {
    assert Fits(host.step(key, read), claims.step(key, read));
  }

  lemma ProgressEnds<V(!new)>(host: Host<V>, claims: Host<V>, s: Store<V>, key: Key, deps: seq<Key>, read: seq<V>,
        value: V)
    requires Describes(claims, host) && Inv(claims, s) && Progress(host, claims, s, key, deps, read)
    requires host.step(key, read) == Ret(value)
    ensures Replays(claims, key, read, deps, value)
    ensures forall i :: 0 <= i < |deps| ==> DepHolds(claims, s, key, s.revision, deps[i], read[i])
    ensures Transcript(host, key, read, deps, value)
  {
    assert Fits(host.step(key, read), claims.step(key, read));
    forall i | 0 <= i < |deps| ensures Follows(claims.step(key, read[..i]), deps[i], value) {
      assert Tracked(claims, key, deps, read, i);
    }
  }

  // ---- Glue for the engine's steps ----

  // The host's program for `k`, given `read`, asks for `deps` in order and returns
  // `value`.
  ghost predicate Transcript<V>(host: Host<V>, k: Key, read: seq<V>, deps: seq<Key>, value: V) {
    HostAsked(host, k, deps, read) && host.step(k, read) == Ret(value)
  }

  // The memo of `k` records a run of the host.
  ghost predicate Produced<V(!new)>(host: Host<V>, s: Store<V>, k: Key) {
    k in s.memos && exists read :: Transcript(host, k, read, s.memos[k].deps, s.memos[k].value)
  }

  // The state evolved on behalf of `key`: nothing ran that evaluating `key` from
  // scratch does not compute, and what ran holds what the host returned.
  ghost predicate Serves<V(!new)>(host: Host<V>, h: Host<V>, s0: Store<V>, s1: Store<V>, key: Key, below: nat)
    requires WellRanked(h)
  {
    && Evolves(h.rank, s0, s1, below)
    && forall k :: Ran(s0, s1, k) ==> Needs(h, key, k) && Produced(host, s1, k)
  }

  lemma ServesIdle<V(!new)>(host: Host<V>, h: Host<V>, s: Store<V>, key: Key, below: nat)
    requires WellRanked(h)
    ensures Serves(host, h, s, s, key, below)
  {
    EvolvesRefl(h.rank, s, below);
  }

  lemma ServesWiden<V(!new)>(host: Host<V>, h: Host<V>, s0: Store<V>, s1: Store<V>, key: Key, b1: nat, b: nat)
    requires WellRanked(h) && Serves(host, h, s0, s1, key, b1) && b1 <= b
    ensures Serves(host, h, s0, s1, key, b)
  {
    EvolvesWiden(h.rank, s0, s1, b1, b);
  }

  // Work for `key` goes on with work for something `key` needs.
  lemma Joined<V(!new)>(host: Host<V>, h: Host<V>, s0: Store<V>, s1: Store<V>, s2: Store<V>,
                        key: Key, d: Key, b1: nat, b2: nat, b: nat)
    requires WellRanked(h) && Inv(h, s1) && b1 <= b && b2 <= b
    requires Serves(host, h, s0, s1, key, b1) && Serves(host, h, s1, s2, d, b2) && Needs(h, key, d)
    ensures Serves(host, h, s0, s2, key, b)
  {
    EvolvesTrans(h.rank, s0, s1, s2, b1, b2, b);
    forall k | Ran(s0, s2, k) ensures Needs(h, key, k) && Produced(host, s2, k) {
      RanSplits(s0, s1, s2, k);
      if Ran(s1, s2, k) {
        NeedsTrans(h, key, d, k);
      } else {
        ConfirmedStays(h.rank, s1, s2, b2, k);
      }
    }
  }

  // A key of larger rank is untouched.
  lemma Untouched<V(!new)>(host: Host<V>, h: Host<V>, s0: Store<V>, s1: Store<V>, key: Key, below: nat, k: Key)
    requires WellRanked(h) && Serves(host, h, s0, s1, key, below) && below <= h.rank(k)
    ensures s1.revision == s0.revision && s1.inputChanged == s0.inputChanged
    ensures MemoAt(s0, k) == MemoAt(s1, k)
  {}

  lemma SameRank<V(!new)>(claims: Host<V>, host: Host<V>)
    requires Describes(claims, host)
    ensures claims.rank == host.rank && claims.input == host.input
    ensures WellRanked(claims) && WellRanked(host) && Runnable(host)
  {}

  lemma MemoBounds<V>(h: Host<V>, s: Store<V>, k: Key)
    requires Inv(h, s) && k in s.memos
    ensures s.memos[k].verifiedAt <= s.revision && h.rank(k) > 0
  {}

  // The dependencies in `deps` are confirmed and unchanged since `at`.
  ghost predicate StillHold<V>(h: Host<V>, s: Store<V>, deps: seq<Key>, at: nat) {
    forall d :: d in deps ==> Confirmed(h, s, d) && Stamp(s, d) <= at
  }

  lemma NoneHold<V>(h: Host<V>, s: Store<V>, deps: seq<Key>, at: nat)
    ensures StillHold(h, s, deps[..0], at)
  {}

  lemma OneMoreHolds<V>(h: Host<V>, s: Store<V>, deps: seq<Key>, i: nat, at: nat)
    requires i < |deps| && StillHold(h, s, deps[..i], at)
    requires Confirmed(h, s, deps[i]) && Stamp(s, deps[i]) <= at
    ensures StillHold(h, s, deps[..i + 1], at)
  {
    assert deps[..i + 1] == deps[..i] + [deps[i]];
  }

  // `deps`, answering `read`, justify `value` for `key` in the current state.
  ghost predicate Justified<V>(h: Host<V>, s: Store<V>, key: Key, value: V, deps: seq<Key>, read: seq<V>) {
    && Replays(h, key, read, deps, value)
    && forall i :: 0 <= i < |deps| ==> DepHolds(h, s, key, s.revision, deps[i], read[i])
  }

  // The host asks for `d`, so evaluating `key` from scratch does.
  lemma AskedIsNeeded<V(!new)>(host: Host<V>, claims: Host<V>, s: Store<V>, key: Key, deps: seq<Key>, read: seq<V>,
        d: Key)
    requires Describes(claims, host) && Progress(host, claims, s, key, deps, read)
    requires host.step(key, read) == Query(d)
    ensures Needs(claims, key, d)
  {
    assert Fits(host.step(key, read), claims.step(key, read));
    assert Reaches(claims, key, read, d);
  }

  // A dependency was fetched: the run so far still stands.
  lemma Advance<V(!new)>(host: Host<V>, claims: Host<V>, s0: Store<V>, s1: Store<V>, s2: Store<V>,
                         key: Key, deps: seq<Key>, read: seq<V>, d: Key)
    requires Describes(claims, host) && Inv(claims, s1)
    requires host.step(key, read) == Query(d)
    requires Progress(host, claims, s1, key, deps, read)
    requires Serves(host, claims, s0, s1, key, host.rank(key)) && Serves(host, claims, s1, s2, d, host.rank(d) + 1)
    ensures Serves(host, claims, s0, s2, key, host.rank(key))
    ensures Progress(host, claims, s2, key, deps, read)
  {
    AskedIsNeeded(host, claims, s1, key, deps, read, d);
    Joined(host, claims, s0, s1, s2, key, d, host.rank(key), host.rank(d) + 1, host.rank(key));
    ReadsSurvive(claims, s1, s2, host.rank(d) + 1, key, deps, read);
  }

  lemma InstallServes<V(!new)>(host: Host<V>, h: Host<V>, s: Store<V>, key: Key, value: V, deps: seq<Key>, read: seq<V>)
    requires WellRanked(h) && Inv(h, s) && h.rank(key) > 0 && MayRun(s, key)
    requires Justified(h, s, key, value, deps, read) && Transcript(host, key, read, deps, value)
    ensures Inv(h, Installed(s, key, value, deps, read))
    ensures Serves(host, h, s, Installed(s, key, value, deps, read), key, h.rank(key) + 1)
  {
    InstallKeepsInv(h, s, key, value, deps, read);
  }

  lemma MayStillRun<V>(h: Host<V>, s0: Store<V>, s1: Store<V>, below: nat, key: Key)
    requires Inv(h, s0) && MayRun(s0, key) && Evolves(h.rank, s0, s1, below) && below <= h.rank(key)
    ensures MayRun(s1, key)
  {
    assert MemoAt(s0, key) == MemoAt(s1, key);
    if key in s0.memos {
      var d :| d in s0.memos[key].deps && s0.memos[key].verifiedAt < Stamp(s0, d);
      StampGrows(s0, s1, d);
    }
  }

  // A finished run is installed.
  lemma Finish<V(!new)>(host: Host<V>, h: Host<V>, s0: Store<V>, s1: Store<V>, key: Key, value: V, deps: seq<Key>,
        read: seq<V>)
    requires WellRanked(h) && Inv(h, s0) && Inv(h, s1) && h.rank(key) > 0
    requires MayRun(s0, key) && Serves(host, h, s0, s1, key, h.rank(key))
    requires Justified(h, s1, key, value, deps, read) && Transcript(host, key, read, deps, value)
    ensures MemoAt(s0, key) == MemoAt(s1, key)
    ensures Inv(h, Installed(s1, key, value, deps, read))
    ensures Serves(host, h, s0, Installed(s1, key, value, deps, read), key, h.rank(key) + 1)
  {
    hide Inv, Evolves, Justified, MayRun;
    MayStillRun(h, s0, s1, h.rank(key), key);
    Untouched(host, h, s0, s1, key, h.rank(key), key);
    InstallServes(host, h, s1, key, value, deps, read);
    Joined(host, h, s0, s1, Installed(s1, key, value, deps, read), key, key, h.rank(key), h.rank(key) + 1,
      h.rank(key) + 1);
  }

  // Dependencies already found unchanged stay so.
  lemma StillHoldLater<V(!new)>(host: Host<V>, h: Host<V>, s0: Store<V>, s1: Store<V>, key: Key, below: nat,
        deps: seq<Key>, at: nat)
    requires WellRanked(h) && Inv(h, s0) && Serves(host, h, s0, s1, key, below) && StillHold(h, s0, deps, at)
    ensures StillHold(h, s1, deps, at)
  {
    forall d | d in deps ensures Confirmed(h, s1, d) && Stamp(s1, d) <= at {
      assert Confirmed(h, s0, d);
      if h.rank(d) > 0 {
        ConfirmedStays(h.rank, s0, s1, below, d);
      } else {
        assert Ran(s0, s1, d) ==> 0 < h.rank(d);
        assert d in s1.memos ==> Stepped(MemoAt(s0, d), s1.memos[d], Ran(s0, s1, d), s1.revision);
      }
    }
  }

  lemma OwnerFails<V(!new)>(host: Host<V>, claims: Host<V>, s: Store<V>, owner: Key, j: nat, file: nat)
    requires Describes(claims, host) && Inv(claims, s) && owner in s.memos && !Total(host)
    requires j < |s.memos[owner].deps| && host.rank(s.memos[owner].deps[j]) > 0
    requires StillHold(claims, s, s.memos[owner].deps[..j], s.memos[owner].verifiedAt)
    requires FailsAs(Eval(claims, s.memos[owner].deps[j]), file)
    ensures FailsAs(Eval(claims, owner), file)
  {
    var deps := s.memos[owner].deps;
    forall n | 0 <= n < j ensures Confirmed(claims, s, deps[n]) && Stamp(s, deps[n]) <= s.memos[owner].verifiedAt {
      assert deps[n] == deps[..j][n];
    }
    StaleRunFails(claims, s, owner, 0, j, file);
    assert s.read[owner][..0] == [];
  }

  lemma DepIsNeeded<V(!new)>(h: Host<V>, s: Store<V>, owner: Key, j: nat)
    requires WellRanked(h) && Inv(h, s) && owner in s.memos
    requires j < |s.memos[owner].deps| && h.rank(s.memos[owner].deps[j]) > 0
    requires StillHold(h, s, s.memos[owner].deps[..j], s.memos[owner].verifiedAt)
    ensures Needs(h, owner, s.memos[owner].deps[j])
  {
    var deps := s.memos[owner].deps;
    forall n | 0 <= n < j ensures Confirmed(h, s, deps[n]) && Stamp(s, deps[n]) <= s.memos[owner].verifiedAt {
      assert deps[n] == deps[..j][n];
    }
    PathToDep(h, s, owner, 0, j);
    assert s.read[owner][..0] == [];
  }
}
