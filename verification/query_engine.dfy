// The red-green engine: revision counter, memos, dependency frames, cycle check,
// cooperative cancellation and execution log.

module QueryEngines {
  import opened QueryModel
  import opened EngineStore
  import opened EngineRun

  class QueryEngine<V(==,!new)> {
    var revision: nat
    var inputChanged: map<Key, nat>
    var memos: map<Key, Memo<V>>
    // Derived queries currently executing (cycle detection).
    var active: seq<Key>
    // Dependency-recording frames, one per executing or validating query.
    var frames: seq<seq<Key>>
    // Every execution, in order, named by its key.
    var log: seq<Key>
    var cancelled: bool
    // The environment: after how many more checks another thread's cancellation
    // request lands, or `None` when no request is on its way.
    var arrival: Option<nat>
    ghost var read: map<Key, seq<V>>

    constructor ()
      ensures Now() == Store(0, map[], map[], [], map[])
      ensures Idle() && Quiet()
    {
      revision, inputChanged, memos, log := 0, map[], map[], [];
      active, frames := [], [];
      cancelled, arrival := false, None;
      read := map[];
    }

    ghost function Now(): Store<V>
      reads this
    {
      Store(revision, inputChanged, memos, log, read)
    }

    // No query is executing.
    predicate Idle()
      reads this
    {
      active == [] && frames == []
    }

    // No cancellation is requested and none is on its way.
    predicate Quiet()
      reads this
    {
      !cancelled && arrival == None
    }

    // What every engine step may assume: `claims` describes the host, the memos
    // are justified, and everything executing has a larger rank than `key`.
    ghost predicate Ready(host: Host<V>, claims: Host<V>, key: Key)
      reads this
    {
      && Describes(claims, host)
      && Inv(claims, Now())
      && forall a :: a in active ==> host.rank(key) < host.rank(a)
    }

    // ---- Inputs, cancellation, instrumentation ----

    // Mark an input as changed. `before` are the claims at the old input values,
    // `after` at the new ones; they may differ only at `key`.
    method BumpInput(key: Key, ghost before: Host<V>, ghost after: Host<V>)
      requires Inv(before, Now()) && before.rank(key) == 0
      requires after == before.(input := after.input)
      requires forall d :: d != key ==> after.input(d) == before.input(d)
      modifies this`revision, this`inputChanged
      ensures revision == old(revision) + 1
      ensures inputChanged == old(inputChanged)[key := revision]
      ensures Inv(after, Now())
    {
      ghost var s := Now();
      revision := revision + 1;
      inputChanged := inputChanged[key := revision];
      BumpKeepsInv(before, after, s, key);
    }

    method RequestCancellation()
      modifies this`cancelled
      ensures cancelled
    {
      cancelled := true;
    }

    method ClearCancellation()
      modifies this`cancelled
      ensures !cancelled
    {
      cancelled := false;
    }

    // The environment: a request will land at the `checks`-th look at the flag.
    method RequestLater(checks: nat)
      modifies this`arrival
      ensures arrival == Some(checks)
    {
      arrival := Some(checks);
    }

    method ClearExecutions()
      modifies this`log
      ensures log == []
    {
      log := [];
    }

    // One look at the cancellation flag; a request on its way may land just before.
    method CheckCancelled() returns (stop: bool)
      modifies this`cancelled, this`arrival
      ensures stop == cancelled
      ensures cancelled <==> old(cancelled) || old(arrival) == Some(0)
      ensures old(arrival) == None || old(arrival) == Some(0) ==> arrival == None
      ensures old(arrival).Some? && old(arrival).value > 0 ==> arrival == Some(old(arrival).value - 1)
    {
      if arrival.Some? {
        if arrival.value == 0 {
          cancelled, arrival := true, None;
        } else {
          arrival := Some(arrival.value - 1);
        }
      }
      stop := cancelled;
    }

    // ---- Queries ----

    // Compute or reuse `key`. Whatever was cached, edited, cancelled or failed
    // before, an answer is the from-scratch answer on the current inputs.
    method Query(key: Key, host: Host<V>, ghost claims: Host<V>) returns (r: Result<V>)
      requires Idle() && host.rank(key) > 0
      requires Describes(claims, host) && Inv(claims, Now())
      modifies this
      ensures Idle() && Inv(claims, Now())
      ensures Serves(host, claims, old(Now()), Now(), key, host.rank(key) + 1)
      ensures r.Ok? ==> Agrees(Eval(claims, key), r.value)
      ensures r.Ok? ==> key in memos && memos[key].verifiedAt == revision && memos[key].value == r.value
      ensures r.NoText? ==> FailsAs(Eval(claims, key), r.file)
      ensures r.NoText? ==> !Total(host)
      ensures r.Cancelled? <==> cancelled
      ensures old(cancelled) ==> r.Cancelled?
      ensures old(arrival) == None ==> arrival == None && cancelled == old(cancelled)
    {
      var changedAt;
      r, changedAt := Fetch(key, host, claims);
      if r.Ok? { FreshEval(claims, Now(), key); }
    }

    method FetchInputDep(key: Key) returns (r: Result<nat>)
      modifies this`frames, this`cancelled, this`arrival
      ensures r.Ok? || r.Cancelled?
      ensures r.Ok? ==> frames == Pushed(old(frames), key)
      ensures r.Ok? ==> r.value == if key in inputChanged then inputChanged[key] else 0
      ensures r.Cancelled? ==> frames == old(frames)
      ensures r.Cancelled? <==> cancelled
      ensures old(arrival) == None ==> arrival == None && cancelled == old(cancelled)
      ensures old(cancelled) ==> r.Cancelled?
    {
      var stop := CheckCancelled();
      if stop { return Cancelled; }
      Record(key);
      r := Ok(if key in inputChanged then inputChanged[key] else 0);
    }

    // Note `key` as a dependency of whatever is executing.
    method Record(key: Key)
      modifies this`frames
      ensures frames == Pushed(old(frames), key)
    {
      if |frames| > 0 {
        frames := frames[..|frames| - 1] + [frames[|frames| - 1] + [key]];
      }
    }

    // Fetch a derived result for whatever is executing, reusing its memo if it is
    // confirmed now or can be.
    method Fetch(key: Key, host: Host<V>, ghost claims: Host<V>) returns (r: Result<V>, changedAt: nat)
      requires Ready(host, claims, key) && host.rank(key) > 0
      modifies this
      ensures active == old(active)
      ensures Inv(claims, Now()) && Serves(host, claims, old(Now()), Now(), key, host.rank(key) + 1)
      ensures r.Ok? ==> frames == Pushed(old(frames), key)
      ensures !r.Ok? ==> frames == old(frames) || frames == Pushed(old(frames), key)
      ensures r.Ok? ==> key in memos && memos[key].verifiedAt == revision
      ensures r.Ok? ==> memos[key].value == r.value && memos[key].changedAt == changedAt
      ensures r.NoText? ==> FailsAs(Eval(claims, key), r.file) && !Total(host)
      ensures r.Cancelled? <==> cancelled
      ensures old(cancelled) ==> r.Cancelled?
      ensures old(arrival) == None ==> arrival == None && cancelled == old(cancelled)
      decreases host.rank(key), 3
    {
      hide Inv, Serves, Describes, Progress, Total, FailsAs, Eval, WellRanked, StaysSettled;
      SameRank(claims, host);
      ServesIdle(host, claims, Now(), key, host.rank(key) + 1);
      var stop := CheckCancelled();
      if stop { return Cancelled, 0; }
      Record(key);
      // The cycle check never fires.
      assert key !in active;
      if key in memos { MemoBounds(claims, Now(), key); }
      if key in memos && memos[key].verifiedAt == revision {
        return Ok(memos[key].value), memos[key].changedAt;
      }
      if key !in memos {
        r, changedAt := Recompute(key, host, None, claims);
        return;
      }
      var memo := memos[key];
      ghost var s0 := Now();
      var green := DepsUnchangedSince(key, memo.deps, memo.verifiedAt, host, claims);
      ghost var s1 := Now();
      match green {
        case Cancelled =>
          ServesWiden(host, claims, s0, s1, key, host.rank(key), host.rank(key) + 1);
          return Cancelled, 0;
        case NoText(file) =>
          ServesWiden(host, claims, s0, s1, key, host.rank(key), host.rank(key) + 1);
          return NoText(file), 0;
        case Ok(holds) =>
          Untouched(host, claims, s0, s1, key, host.rank(key), key);
          if holds {
            Confirm(key, host, claims);
            r, changedAt := Ok(memos[key].value), memos[key].changedAt;
          } else {
            r, changedAt := Recompute(key, host, Some(memo), claims);
          }
          Joined(host, claims, s0, s1, Now(), key, key, host.rank(key), host.rank(key) + 1, host.rank(key) + 1);
      }
    }

    // Advance the verification stamp of a memo whose dependencies all hold.
    method Confirm(key: Key, ghost host: Host<V>, ghost claims: Host<V>)
      requires WellRanked(claims) && Inv(claims, Now()) && key in memos && memos[key].verifiedAt < revision
      requires StillHold(claims, Now(), memos[key].deps, memos[key].verifiedAt)
      modifies this`memos
      ensures memos == old(memos)[key := old(memos[key]).(verifiedAt := revision)]
      ensures Inv(claims, Now()) && Serves(host, claims, old(Now()), Now(), key, claims.rank(key) + 1)
    {
      ConfirmKeepsInv(claims, Now(), key);
      memos := memos[key := memos[key].(verifiedAt := revision)];
    }

    // Run the host for `key`, then install the fresh memo; an equal value keeps
    // its old change stamp.
    method Recompute(key: Key, host: Host<V>, existing: Option<Memo<V>>, ghost claims: Host<V>)
      returns (r: Result<V>, changedAt: nat)
      requires Ready(host, claims, key) && host.rank(key) > 0
      requires existing == MemoAt(Now(), key) && MayRun(Now(), key)
      modifies this
      ensures active == old(active) && frames == old(frames)
      ensures Inv(claims, Now()) && Serves(host, claims, old(Now()), Now(), key, host.rank(key) + 1)
      ensures r.Ok? ==> key in memos && memos[key].verifiedAt == revision
      ensures r.Ok? ==> memos[key].value == r.value && memos[key].changedAt == changedAt
      ensures r.NoText? ==> FailsAs(Eval(claims, key), r.file) && !Total(host)
      ensures r.Cancelled? ==> cancelled
      ensures cancelled && !old(cancelled) ==> r.Cancelled?
      ensures old(arrival) == None ==> arrival == None && cancelled == old(cancelled)
      decreases host.rank(key), 2
    {
      hide Inv, Serves, Describes, Justified, Transcript, MayRun, Total, FailsAs, Eval, WellRanked, StaysSettled;
      SameRank(claims, host);
      ghost var s0 := Now();
      active := active + [key];
      frames := frames + [[]];
      ghost var answers;
      r, answers := RunHost(key, host, claims);
      ghost var s1 := Now();
      var deps := frames[|frames| - 1];
      frames := frames[..|frames| - 1];
      active := active[..|active| - 1];
      if !r.Ok? {
        ServesWiden(host, claims, s0, s1, key, host.rank(key), host.rank(key) + 1);
        return r, 0;
      }
      log := log + [key];
      changedAt := if existing.Some? && existing.value.value == r.value then existing.value.changedAt else revision;
      memos := memos[key := Memo(r.value, changedAt, revision, deps)];
      read := read[key := answers];
      Finish(host, claims, s0, s1, key, r.value, deps, answers);
    }

    // Drive the host's program for `key`, recording every dependency it fetches
    // in the top frame.
    method RunHost(key: Key, host: Host<V>, ghost claims: Host<V>) returns (r: Result<V>, ghost answers: seq<V>)
      requires Describes(claims, host) && Inv(claims, Now()) && host.rank(key) > 0
      requires forall a :: a in active ==> host.rank(key) <= host.rank(a)
      requires |frames| > 0 && frames[|frames| - 1] == []
      modifies this
      ensures active == old(active)
      ensures |frames| == |old(frames)| && frames[..|frames| - 1] == old(frames)[..|frames| - 1]
      ensures Inv(claims, Now()) && Serves(host, claims, old(Now()), Now(), key, host.rank(key))
      ensures r.Ok? ==> Justified(claims, Now(), key, r.value, frames[|frames| - 1], answers)
      ensures r.Ok? ==> Transcript(host, key, answers, frames[|frames| - 1], r.value)
      ensures r.NoText? ==> FailsAs(Eval(claims, key), r.file) && !Total(host)
      ensures r.Cancelled? ==> cancelled
      ensures cancelled && !old(cancelled) ==> r.Cancelled?
      ensures old(arrival) == None ==> arrival == None && cancelled == old(cancelled)
      decreases host.rank(key), 1
    {
      hide Inv, Serves, Describes, Progress, WellRanked, StaysSettled, Total;
      SameRank(claims, host);
      ghost var s0, outer := Now(), frames[..|frames| - 1];
      ServesIdle(host, claims, s0, key, host.rank(key));
      ProgressStarts(host, claims, s0, key);
      var given: seq<V> := [];
      ghost var deps: seq<Key> := [];
      while host.step(key, given).Asks()
        invariant frames == outer + [deps] && active == old(active)
        invariant Inv(claims, Now()) && Serves(host, claims, s0, Now(), key, host.rank(key))
        invariant Progress(host, claims, Now(), key, deps, given)
        invariant cancelled ==> old(cancelled)
        invariant old(arrival) == None ==> arrival == None && cancelled == old(cancelled)
        decreases host.limit(key) - |given|
      {
        var step := host.step(key, given);
        ghost var s1 := Now();
        if step.Input? {
          var changed := FetchInputDep(step.key);
          if !changed.Ok? { return Cancelled, given; }
          ProgressSteps(host, claims, s1, key, deps, given, step.key);
          given := given + [host.input(step.key)];
        } else {
          var answer, _ := Fetch(step.key, host, claims);
          Advance(host, claims, s0, s1, Now(), key, deps, given, step.key);
          match answer {
            case Cancelled => return Cancelled, given;
            case NoText(file) =>
              ProgressFails(host, claims, Now(), key, deps, given, step.key, file);
              return NoText(file), given;
            case Ok(v) =>
              ProgressSteps(host, claims, Now(), key, deps, given, step.key);
              given := given + [v];
          }
        }
        deps := deps + [step.key];
      }
      if host.step(key, given).Fail? {
        ProgressStops(host, claims, Now(), key, deps, given, host.step(key, given).file);
        return NoText(host.step(key, given).file), given;
      }
      ProgressEnds(host, claims, Now(), key, deps, given, host.step(key, given).value);
      return Ok(host.step(key, given).value), given;
    }

    // Whether every dependency of `owner`'s memo still holds what it held at
    // `verifiedAt`, revalidating or recomputing each in turn.
    method DepsUnchangedSince(owner: Key, deps: seq<Key>, verifiedAt: nat, host: Host<V>, ghost claims: Host<V>)
      returns (r: Result<bool>)
      requires Ready(host, claims, owner)
      requires owner in memos && memos[owner].deps == deps && memos[owner].verifiedAt == verifiedAt < revision
      modifies this
      ensures active == old(active) && frames == old(frames)
      ensures Inv(claims, Now()) && Serves(host, claims, old(Now()), Now(), owner, host.rank(owner))
      ensures r == Ok(true) ==> StillHold(claims, Now(), deps, verifiedAt)
      ensures r == Ok(false) ==> exists d :: d in deps && verifiedAt < Stamp(Now(), d)
      ensures r.NoText? ==> FailsAs(Eval(claims, owner), r.file) && !Total(host)
      ensures r.Cancelled? ==> cancelled
      ensures cancelled && !old(cancelled) ==> r.Cancelled?
      ensures old(arrival) == None ==> arrival == None && cancelled == old(cancelled)
      decreases host.rank(owner), 1
    {
      hide Inv, Serves, Describes, StillHold, Total;
      SameRank(claims, host);
      ghost var s0 := Now();
      ServesIdle(host, claims, s0, owner, host.rank(owner));
      frames := frames + [[]];
      var i := 0;
      r := Ok(true);
      NoneHold(claims, s0, deps, verifiedAt);
      while i < |deps|
        invariant 0 <= i <= |deps|
        invariant frames == old(frames) + [[]] && active == old(active)
        invariant Inv(claims, Now()) && Serves(host, claims, s0, Now(), owner, host.rank(owner))
        invariant StillHold(claims, Now(), deps[..i], verifiedAt)
        invariant MemoAt(Now(), owner) == MemoAt(s0, owner) && revision == s0.revision
        invariant r == Ok(true)
        invariant cancelled ==> old(cancelled)
        invariant old(arrival) == None ==> arrival == None && cancelled == old(cancelled)
      {
        var depChangedAt := DepChangedAt(owner, i, s0, host, claims);
        match depChangedAt {
          case Cancelled => r := Cancelled; break;
          case NoText(file) => r := NoText(file); break;
          case Ok(at) =>
            if at > verifiedAt {
              r := Ok(false);
              break;
            }
            OneMoreHolds(claims, Now(), deps, i, verifiedAt);
        }
        i := i + 1;
      }
      assert deps[..|deps|] == deps;
      frames := frames[..|frames| - 1];
    }

    // When the `i`th recorded dependency of `owner` last changed. A memoized one is
    // revalidated first; anything else is an input.
    method DepChangedAt(owner: Key, i: nat, ghost s0: Store<V>, host: Host<V>, ghost claims: Host<V>)
      returns (r: Result<nat>)
      requires Ready(host, claims, owner) && Serves(host, claims, s0, Now(), owner, host.rank(owner))
      requires owner in memos && memos[owner].verifiedAt < revision && i < |memos[owner].deps|
      requires StillHold(claims, Now(), memos[owner].deps[..i], memos[owner].verifiedAt)
      modifies this
      ensures active == old(active) && frames == old(frames)
      ensures Inv(claims, Now()) && Serves(host, claims, s0, Now(), owner, host.rank(owner))
      ensures MemoAt(Now(), owner) == MemoAt(s0, owner) && revision == s0.revision
      ensures StillHold(claims, Now(), old(memos[owner].deps)[..i], old(memos[owner].verifiedAt))
      ensures r.Ok? ==> Confirmed(claims, Now(), old(memos[owner].deps)[i])
      ensures r.Ok? ==> Stamp(Now(), old(memos[owner].deps)[i]) == r.value
      ensures r.NoText? ==> FailsAs(Eval(claims, owner), r.file) && !Total(host)
      ensures r.Cancelled? ==> cancelled
      ensures cancelled && !old(cancelled) ==> r.Cancelled?
      ensures old(arrival) == None ==> arrival == None && cancelled == old(cancelled)
      decreases host.rank(owner), 0
    {
      hide Inv, Serves, Describes, StillHold, Total, Eval, WellRanked, StaysSettled;
      SameRank(claims, host);
      ghost var s1 := Now();
      Untouched(host, claims, s0, s1, owner, host.rank(owner), owner);
      DepsLower(claims, s1, owner);
      var dep := memos[owner].deps[i];
      if dep in memos {
        MemoBounds(claims, s1, dep);
        r := RevalidateMemoized(dep, host, claims);
        Untouched(host, claims, s1, Now(), dep, host.rank(dep) + 1, owner);
        DepIsNeeded(claims, s1, owner, i);
        Joined(host, claims, s0, s1, Now(), owner, dep, host.rank(owner), host.rank(dep) + 1, host.rank(owner));
        StillHoldLater(host, claims, s1, Now(), dep, host.rank(dep) + 1, s1.memos[owner].deps[..i],
          s1.memos[owner].verifiedAt);
        if r.NoText? { OwnerFails(host, claims, Now(), owner, i, r.file); }
      } else {
        r := Ok(if dep in inputChanged then inputChanged[dep] else 0);
      }
    }

    // Revalidate a memoized query and return when its value last changed.
    method RevalidateMemoized(key: Key, host: Host<V>, ghost claims: Host<V>) returns (r: Result<nat>)
      requires Ready(host, claims, key) && key in memos
      modifies this
      ensures active == old(active) && frames == old(frames)
      ensures Inv(claims, Now()) && Serves(host, claims, old(Now()), Now(), key, host.rank(key) + 1)
      ensures r.Ok? ==> key in memos && memos[key].verifiedAt == revision && memos[key].changedAt == r.value
      ensures r.NoText? ==> FailsAs(Eval(claims, key), r.file) && !Total(host)
      ensures r.Cancelled? <==> cancelled
      ensures old(arrival) == None ==> arrival == None && cancelled == old(cancelled)
      decreases host.rank(key), 3
    {
      hide Inv, Serves, Describes, Progress, Total, WellRanked, StaysSettled;
      SameRank(claims, host);
      ServesIdle(host, claims, Now(), key, host.rank(key) + 1);
      var stop := CheckCancelled();
      if stop { return Cancelled; }
      var memo := memos[key];
      MemoBounds(claims, Now(), key);
      if memo.verifiedAt == revision { return Ok(memo.changedAt); }
      ghost var s0 := Now();
      var green := DepsUnchangedSince(key, memo.deps, memo.verifiedAt, host, claims);
      ghost var s1 := Now();
      match green {
        case Cancelled =>
          ServesWiden(host, claims, s0, s1, key, host.rank(key), host.rank(key) + 1);
          return Cancelled;
        case NoText(file) =>
          ServesWiden(host, claims, s0, s1, key, host.rank(key), host.rank(key) + 1);
          return NoText(file);
        case Ok(holds) =>
          Untouched(host, claims, s0, s1, key, host.rank(key), key);
          if holds {
            Confirm(key, host, claims);
            r := Ok(memos[key].changedAt);
          } else {
            var remade, changedAt := Recompute(key, host, Some(memo), claims);
            r := match remade case Ok(_) => Ok(changedAt) case Cancelled => Cancelled case NoText(file) => NoText(file);
          }
          Joined(host, claims, s0, s1, Now(), key, key, host.rank(key), host.rank(key) + 1, host.rank(key) + 1);
      }
    }
  }

  // `key` appended to the top frame, if there is one.
  function Pushed(frames: seq<seq<Key>>, key: Key): seq<seq<Key>> {
    if frames == [] then []
    else frames[..|frames| - 1] + [frames[|frames| - 1] + [key]]
  }
}
