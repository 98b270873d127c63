// Which specs an edit can affect, and which the session selects. A spec's outcome
// is built from its own text and the outcomes of what it uses, in turn.

module AffectedSpecSoundness {
  import opened QueryModel
  import opened FrontEnd
  import opened SpecClosures
  import opened SessionClaims
  import opened SessionTruth
  import opened EngineStore
  import opened IncrementalSessions

  // What running a spec depends on: each symbol's own text and the symbols its
  // body uses.
  datatype Bodies = Bodies(text: nat -> string, uses: nat -> seq<nat>)

  // Any way of giving a symbol an outcome from its text and the outcomes of what
  // it uses; `base` is the outcome when the fuel has run out.
  datatype Semantics<!O> = Semantics(run: (string, seq<O>) -> O, base: O)

  function Outcome<O>(m: Bodies, sem: Semantics<O>, fuel: nat, id: nat): O
    decreases fuel
  {
    if fuel == 0 then sem.base
    else
      var kids := m.uses(id);
      sem.run(m.text(id), seq(|kids|, i requires 0 <= i < |kids| => Outcome(m, sem, fuel - 1, kids[i])))
  }

  // ---- Use chains ----

  ghost predicate Chain(m: Bodies, path: seq<nat>) {
    && path != []
    && forall i :: 0 <= i < |path| - 1 ==> path[i + 1] in m.uses(path[i])
  }

  ghost predicate Leads(m: Bodies, path: seq<nat>, start: nat, end: nat) {
    Chain(m, path) && path[0] == start && path[|path| - 1] == end
  }

  ghost predicate Uses(m: Bodies, start: nat, end: nat) {
    exists path :: Leads(m, path, start, end)
  }

  lemma UsesSelf(m: Bodies, id: nat)
    ensures Uses(m, id, id)
  {
    assert Leads(m, [id], id, id);
  }

  lemma UsesThrough(m: Bodies, start: nat, next: nat, end: nat)
    requires next in m.uses(start) && Uses(m, next, end)
    ensures Uses(m, start, end)
  {
    var path :| Leads(m, path, next, end);
    assert Leads(m, [start] + path, start, end);
  }

  // ---- Edits ----

  // The edit leaves every symbol outside the changed files as it was.
  ghost predicate Confined(m0: Bodies, m1: Bodies, home: nat -> nat, files: seq<nat>) {
    forall id :: home(id) !in files ==> m0.text(id) == m1.text(id) && m0.uses(id) == m1.uses(id)
  }

  ghost predicate TouchesChange(m: Bodies, home: nat -> nat, files: seq<nat>, spec: nat) {
    exists id :: Uses(m, spec, id) && home(id) in files
  }

  // A spec that uses nothing in a changed file, however far down, has the outcome
  // it had before the edit.
  lemma {:induction false} UntouchedIsUnaffected<O>(m0: Bodies, m1: Bodies, home: nat -> nat, files: seq<nat>,
                                                    sem: Semantics<O>, fuel: nat, spec: nat)
    requires Confined(m0, m1, home, files) && !TouchesChange(m1, home, files, spec)
    ensures Outcome(m0, sem, fuel, spec) == Outcome(m1, sem, fuel, spec)
    decreases fuel
  {
    UsesSelf(m1, spec);
    assert m0.text(spec) == m1.text(spec) && m0.uses(spec) == m1.uses(spec);
    if fuel > 0 {
      var kids := m1.uses(spec);
      forall i | 0 <= i < |kids| ensures Outcome(m0, sem, fuel - 1, kids[i]) == Outcome(m1, sem, fuel - 1, kids[i]) {
        forall id | Uses(m1, kids[i], id) ensures home(id) !in files {
          UsesThrough(m1, spec, kids[i], id);
        }
        UntouchedIsUnaffected(m0, m1, home, files, sem, fuel - 1, kids[i]);
      }
      assert seq(|kids|, i requires 0 <= i < |kids| => Outcome(m0, sem, fuel - 1, kids[i]))
          == seq(|kids|, i requires 0 <= i < |kids| => Outcome(m1, sem, fuel - 1, kids[i]));
    }
  }

  // The most discriminating semantics: an outcome is everything that was run.
  datatype Trace = Cut | Trace(text: string, kids: seq<Trace>)

  function Tracing(): Semantics<Trace> {
    Semantics((text, kids) => Trace(text, kids), Cut)
  }

  lemma {:induction false} TraceReveals(m0: Bodies, m1: Bodies, path: seq<nat>, end: nat)
    requires m0.uses == m1.uses && Chain(m1, path) && path[|path| - 1] == end
    requires m0.text(end) != m1.text(end)
    ensures Outcome(m0, Tracing(), |path|, path[0]) != Outcome(m1, Tracing(), |path|, path[0])
    decreases |path|
  {
    if |path| > 1 {
      var kids := m1.uses(path[0]);
      assert path[0 + 1] in kids;
      var i :| 0 <= i < |kids| && kids[i] == path[1];
      assert forall j :: 0 <= j < |path| - 2 ==> path[1..][j + 1] in m1.uses(path[1..][j]) by {
        forall j | 0 <= j < |path| - 2 ensures path[1..][j + 1] in m1.uses(path[1..][j]) {
          assert path[(j + 1) + 1] in m1.uses(path[j + 1]);
        }
      }
      TraceReveals(m0, m1, path[1..], end);
      var k0 := Outcome(m0, Tracing(), |path|, path[0]).kids;
      var k1 := Outcome(m1, Tracing(), |path|, path[0]).kids;
      assert k0[i] != k1[i];
    }
  }

  // Some edit of the changed files, under some semantics, changes the outcome of
  // every spec that does use something there: the condition is exact.
  lemma TouchedCanChange(m1: Bodies, home: nat -> nat, files: seq<nat>, spec: nat)
    requires TouchesChange(m1, home, files, spec)
    ensures exists m0, fuel: nat ::
      Confined(m0, m1, home, files) && Outcome(m0, Tracing(), fuel, spec) != Outcome(m1, Tracing(), fuel, spec)
  {
    var id :| Uses(m1, spec, id) && home(id) in files;
    var path :| Leads(m1, path, spec, id);
    var m0 := m1.(text := (x: nat) => if x == id then m1.text(id) + "!" else m1.text(x));
    TraceReveals(m0, m1, path, id);
    assert Confined(m0, m1, home, files);
  }

  // Skipping a spec is safe for every edit of the files exactly when it uses
  // nothing in them.
  lemma SkippingIsSafeExactly(m1: Bodies, home: nat -> nat, files: seq<nat>, spec: nat)
    ensures !TouchesChange(m1, home, files, spec) <==>
      forall m0, fuel: nat | Confined(m0, m1, home, files) ::
        Outcome(m0, Tracing(), fuel, spec) == Outcome(m1, Tracing(), fuel, spec)
  {
    if TouchesChange(m1, home, files, spec) {
      TouchedCanChange(m1, home, files, spec);
    } else {
      forall m0, fuel: nat | Confined(m0, m1, home, files)
        ensures Outcome(m0, Tracing(), fuel, spec) == Outcome(m1, Tracing(), fuel, spec)
      {
        UntouchedIsUnaffected(m0, m1, home, files, Tracing(), fuel, spec);
      }
    }
  }

  // ---- What the session selects ----

  // A written declaration stands in the symbol's own file.
  ghost predicate DeclaredAtHome(r: Resolution, home: nat -> nat) {
    forall id :: 0 <= id < |r.symbols| && r.symbols[id].declaration.Some? ==>
      r.symbols[id].declaration.value == home(id)
  }

  // A spec uses exactly its recorded dependencies and target, and those among them
  // that stand in a changed file are declared there.
  ghost predicate Reflects(r: Resolution, m: Bodies, home: nat -> nat, files: seq<nat>) {
    && DeclaredAtHome(r, home)
    && (forall id, x :: IsSpec(r, id) ==> (x in m.uses(id) <==> x in Roots(r, id)))
    && (forall id, x :: IsSpec(r, id) && x in m.uses(id) && home(x) in files ==> DeclaredIn(r, files, x))
  }

  ghost predicate NamesChange(m: Bodies, home: nat -> nat, files: seq<nat>, spec: nat) {
    exists id :: id in m.uses(spec) && home(id) in files
  }

  // Selection looks one step deep: at the spec's own declaration and at what it
  // names.
  lemma SelectsOneLevel(r: Resolution, m: Bodies, home: nat -> nat, files: seq<nat>, spec: nat)
    requires RecordsOnlySpecs(r) && Reflects(r, m, home, files) && IsSpec(r, spec)
    ensures Affected(r, files, spec) <==> DeclaredIn(r, files, spec) || NamesChange(m, home, files, spec)
  {
    hide RecordsOnlySpecs;
    if NamesChange(m, home, files, spec) {
      var id :| id in m.uses(spec) && home(id) in files;
      ClosureIsOneLevel(r, spec, id);
      assert DeclaredIn(r, files, id);
    }
    if d :| d in SpecClosure(r, spec) && DeclaredIn(r, files, d) {
      ClosureIsOneLevel(r, spec, d);
      assert d in m.uses(spec);
    }
  }

  // What is selected is affected, always.
  lemma SelectedIsTouched(r: Resolution, m: Bodies, home: nat -> nat, files: seq<nat>, spec: nat)
    requires RecordsOnlySpecs(r) && Reflects(r, m, home, files) && IsSpec(r, spec)
    requires Affected(r, files, spec)
    ensures TouchesChange(m, home, files, spec)
  {
    SelectsOneLevel(r, m, home, files, spec);
    UsesSelf(m, spec);
    if NamesChange(m, home, files, spec) {
      var id :| id in m.uses(spec) && home(id) in files;
      UsesSelf(m, id);
      UsesThrough(m, spec, id, id);
    }
  }

  predicate InProgram(files: seq<nat>, count: nat) {
    forall i :: 0 <= i < |files| ==> files[i] < count
  }

  // The file holds the spec's own declaration, or something the spec names.
  ghost predicate InSight(r: Resolution, m: Bodies, home: nat -> nat, spec: nat, file: nat) {
    DeclaredIn(r, [file], spec) || NamesChange(m, home, [file], spec)
  }

  ghost predicate ReachesOnlyInSight(r: Resolution, m: Bodies, home: nat -> nat, count: nat, spec: nat) {
    forall id :: Uses(m, spec, id) && home(id) < count ==> InSight(r, m, home, spec, home(id))
  }

  ghost predicate AlwaysRight(r: Resolution, m: Bodies, home: nat -> nat, count: nat, spec: nat) {
    forall files :: InProgram(files, count) ==> (Affected(r, files, spec) <==> TouchesChange(m, home, files, spec))
  }

  // Seen before any edit: the selection is right about a spec for every set of
  // edited files exactly when whatever the spec uses, however far down, stands in a
  // file that also holds its own declaration or something it names.
  lemma SelectionIsAlwaysRightExactly(r: Resolution, m: Bodies, home: nat -> nat, count: nat, spec: nat)
    requires RecordsOnlySpecs(r) && IsSpec(r, spec)
    requires forall files :: InProgram(files, count) ==> Reflects(r, m, home, files)
    ensures AlwaysRight(r, m, home, count, spec) <==> ReachesOnlyInSight(r, m, home, count, spec)
  {
    hide RecordsOnlySpecs, Reflects, Affected, Uses, DeclaredIn;
    if AlwaysRight(r, m, home, count, spec) {
      forall id | Uses(m, spec, id) && home(id) < count ensures InSight(r, m, home, spec, home(id)) {
        assert InProgram([home(id)], count) && TouchesChange(m, home, [home(id)], spec);
        SelectsOneLevel(r, m, home, [home(id)], spec);
      }
    }
    if ReachesOnlyInSight(r, m, home, count, spec) {
      forall files | InProgram(files, count) ensures Affected(r, files, spec) <==> TouchesChange(m, home, files, spec) {
        SelectsOneLevel(r, m, home, files, spec);
        if Affected(r, files, spec) { SelectedIsTouched(r, m, home, files, spec); }
        if TouchesChange(m, home, files, spec) {
          var id :| Uses(m, spec, id) && home(id) in files;
          InSightOfMore(r, m, home, spec, home(id), files);
        }
      }
    }
  }

  lemma InSightOfMore(r: Resolution, m: Bodies, home: nat -> nat, spec: nat, file: nat, files: seq<nat>)
    requires InSight(r, m, home, spec, file) && file in files
    ensures DeclaredIn(r, files, spec) || NamesChange(m, home, files, spec)
  {
    if NamesChange(m, home, [file], spec) {
      var id :| id in m.uses(spec) && home(id) in [file];
      assert home(id) in files;
    }
  }

  // ---- Where the recorded edges are all there is ----

  // Bodies that use only what the resolution records for them.
  ghost predicate UsesRecorded(r: Resolution, m: Bodies, spec: nat) {
    && (forall x :: x in m.uses(spec) ==> x in Roots(r, spec))
    && (forall id, x :: id != spec && x in m.uses(id) ==> x in r.DependenciesOf(id))
  }

  lemma {:induction false} ChainIsRecorded(r: Resolution, m: Bodies, spec: nat, path: seq<nat>)
    requires UsesRecorded(r, m, spec) && Chain(m, path) && path[0] == spec
    ensures path[|path| - 1] == spec || Reachable(r, Roots(r, spec), path[|path| - 1])
  {
    if |path| > 1 {
      var front := path[..|path| - 1];
      ChainIsRecorded(r, m, spec, front);
      var last := path[|path| - 1];
      assert path[|path| - 2 + 1] in m.uses(path[|path| - 2]);
      if path[|path| - 2] == spec {
        assert From(r, [last], Roots(r, spec), last);
      } else {
        var p :| From(r, p, Roots(r, spec), path[|path| - 2]);
        assert From(r, p + [last], Roots(r, spec), last);
      }
    }
  }

  // What a spec reaches along recorded edges in a changed file is declared there.
  ghost predicate ReachedIsDeclared(r: Resolution, home: nat -> nat, files: seq<nat>, spec: nat) {
    forall id :: id == spec || Reachable(r, Roots(r, spec), id) ==> (home(id) in files ==> DeclaredIn(r, files, id))
  }

  // If outcomes follow the recorded edges, however deep, every declared spec that
  // is not selected has the same outcome before and after the edit.
  lemma UnselectedIsUnaffected<O>(r: Resolution, m0: Bodies, m1: Bodies, home: nat -> nat, files: seq<nat>,
                                  sem: Semantics<O>, fuel: nat, spec: nat)
    requires UsesRecorded(r, m1, spec) && Confined(m0, m1, home, files) && ReachedIsDeclared(r, home, files, spec)
    requires !Affected(r, files, spec)
    ensures Outcome(m0, sem, fuel, spec) == Outcome(m1, sem, fuel, spec)
  {
    forall id | Uses(m1, spec, id) ensures home(id) !in files {
      var path :| Leads(m1, path, spec, id);
      ChainIsRecorded(r, m1, spec, path);
      if id != spec { ClosureIsReachability(r, spec, id); }
    }
    UntouchedIsUnaffected(m0, m1, home, files, sem, fuel, spec);
  }

  // ---- What the session's list is good for ----

  // Every spec left out of the list keeps its outcome through the edit.
  ghost predicate LeftOutAreUnaffected<O>(r: Resolution, m0: Bodies, m1: Bodies, home: nat -> nat, files: seq<nat>,
                                          sem: Semantics<O>, list: seq<nat>)
  {
    forall spec, fuel: nat :: IsSpec(r, spec) && spec !in list ==>
      UsesRecorded(r, m1, spec) && ReachedIsDeclared(r, home, files, spec) ==>
      Outcome(m0, sem, fuel, spec) == Outcome(m1, sem, fuel, spec)
  }

  // Of every spec whose whole use is in sight, the list says whether the edit can
  // change it.
  ghost predicate ListIsRight(r: Resolution, m1: Bodies, home: nat -> nat, count: nat, files: seq<nat>,
                              list: seq<nat>)
  {
    forall spec :: IsSpec(r, spec) && ReachesOnlyInSight(r, m1, home, count, spec) ==>
      (spec in list <==> TouchesChange(m1, home, files, spec))
  }

  lemma SelectionLeavesOutUnaffected<O>(r: Resolution, m0: Bodies, m1: Bodies, home: nat -> nat, files: seq<nat>,
                                        sem: Semantics<O>, list: seq<nat>)
    requires Selection(r, files, list) && Confined(m0, m1, home, files)
    ensures LeftOutAreUnaffected(r, m0, m1, home, files, sem, list)
  {
    hide Affected, UsesRecorded, ReachedIsDeclared, Confined, Increasing;
    forall spec, fuel: nat | IsSpec(r, spec) && spec !in list
        && UsesRecorded(r, m1, spec) && ReachedIsDeclared(r, home, files, spec)
      ensures Outcome(m0, sem, fuel, spec) == Outcome(m1, sem, fuel, spec)
    {
      UnselectedIsUnaffected(r, m0, m1, home, files, sem, fuel, spec);
    }
  }

  lemma SelectionIsRight(r: Resolution, m1: Bodies, home: nat -> nat, count: nat, files: seq<nat>, list: seq<nat>)
    requires RecordsOnlySpecs(r) && Selection(r, files, list) && InProgram(files, count)
    requires forall fs :: InProgram(fs, count) ==> Reflects(r, m1, home, fs)
    ensures ListIsRight(r, m1, home, count, files, list)
  {
    hide RecordsOnlySpecs, Affected, Reflects, TouchesChange, Increasing, InProgram, ReachesOnlyInSight;
    forall spec | IsSpec(r, spec) && ReachesOnlyInSight(r, m1, home, count, spec)
      ensures spec in list <==> TouchesChange(m1, home, files, spec)
    {
      SelectionIsAlwaysRightExactly(r, m1, home, count, spec);
    }
  }

  // Every list right for a spec, whatever is edited, means its whole use is in sight.
  lemma ListsAreRightExactly(r: Resolution, m1: Bodies, home: nat -> nat, count: nat, spec: nat)
    requires RecordsOnlySpecs(r) && IsSpec(r, spec)
    requires forall fs :: InProgram(fs, count) ==> Reflects(r, m1, home, fs)
    ensures ReachesOnlyInSight(r, m1, home, count, spec) <==>
      forall files, list | InProgram(files, count) && Selection(r, files, list) ::
        spec in list <==> TouchesChange(m1, home, files, spec)
  {
    hide RecordsOnlySpecs, Affected, Reflects, TouchesChange, Increasing, InProgram, ReachesOnlyInSight;
    SelectionIsAlwaysRightExactly(r, m1, home, count, spec);
    if forall files, list | InProgram(files, count) && Selection(r, files, list) ::
         spec in list <==> TouchesChange(m1, home, files, spec)
    {
      forall files | InProgram(files, count)
        ensures Affected(r, files, spec) <==> TouchesChange(m1, home, files, spec)
      {
        SelectionHolds(r, files);
        var list := AffectedAmong(r, files, SpecSymbols(r, |r.symbols|));
        assert spec in list <==> Affected(r, files, spec);
      }
    }
  }

  // Ask a session which specs an edit affects, and skip the others.
  method SelectSpecs<O>(session: IncrementalSession, files: seq<nat>, ghost m0: Bodies, ghost m1: Bodies,
                        ghost home: nat -> nat, ghost sem: Semantics<O>)
      returns (r: Result<seq<nat>>)
    requires session.Valid() && InProgram(files, |session.files|) && Confined(m0, m1, home, files)
    requires forall fs :: InProgram(fs, |session.files|) ==>
      Reflects(session.stages.resolve(session.Texts()), m1, home, fs)
    modifies session`snapshot, session`compiled, session.engine
    ensures session.Valid() && (r.Ok? || r.Cancelled?) && (old(session.engine.Quiet()) ==> r.Ok?)
    ensures var resolution := session.stages.resolve(session.Texts());
      r.Ok? ==>
        && LeftOutAreUnaffected(resolution, m0, m1, home, files, sem, r.value)
        && ListIsRight(resolution, m1, home, |session.files|, files, r.value)
  {
    hide Selection, Reflects, InProgram, Confined, LeftOutAreUnaffected, ListIsRight, Inv, AllWired;
    ghost var resolution := session.stages.resolve(session.Texts());
    assert RecordsOnlySpecs(resolution) by { ResolutionIsSound(session.world, session.Texts()); }
    r := session.AffectedSpecs(files);
    if r.Ok? {
      SelectionLeavesOutUnaffected(resolution, m0, m1, home, files, sem, r.value);
      SelectionIsRight(resolution, m1, home, |session.files|, files, r.value);
    }
  }

  lemma ResolutionIsSound(w: World, texts: seq<string>)
    requires Grounded(w, texts)
    ensures RecordsOnlySpecs(w.stages.resolve(texts))
  {
    assert ResolvesWell(w, texts);
  }

  // ---- The two ways a spec is missed ----

  const SOME_SPEC := Symbol("s", Spec, false, Some(0))
  const STRING_SPEC := Symbol("s", Spec, false, None)

  function Function_(name: string, file: nat): Symbol { Symbol(name, Function, true, Some(file)) }

  // File 0 holds `spec outer` and `fn outer`, file 1 the `fn inner` that `outer` calls.
  function CalleeResolution(): Resolution {
    Resolution([SOME_SPEC, Function_("outer", 0), Function_("inner", 1)], map[0 := [1]], map[0 := 1], map[0 := 0], {})
  }

  function CalleeBodies(): Bodies {
    Bodies(id => "", id => if id == 0 then [1] else if id == 1 then [2] else [])
  }

  function CalleeHome(): nat -> nat {
    id => if id == 2 then 1 else 0
  }

  lemma CalleeReflects()
    ensures RecordsOnlySpecs(CalleeResolution())
    ensures Reflects(CalleeResolution(), CalleeBodies(), CalleeHome(), [1])
  {
    assert Roots(CalleeResolution(), 0) == [1, 1];
  }

  // Editing a callee's callee in another file does not select the spec: closures
  // follow no edge out of a function.
  lemma IndirectCalleeIsMissed()
    ensures RecordsOnlySpecs(CalleeResolution())
    ensures Reflects(CalleeResolution(), CalleeBodies(), CalleeHome(), [1])
    ensures !Affected(CalleeResolution(), [1], 0)
    ensures TouchesChange(CalleeBodies(), CalleeHome(), [1], 0)
  {
    hide RecordsOnlySpecs, Reflects, Affected;
    CalleeReflects();
    SelectsOneLevel(CalleeResolution(), CalleeBodies(), CalleeHome(), [1], 0);
    assert Leads(CalleeBodies(), [0, 1, 2], 0, 2);
    assert Uses(CalleeBodies(), 0, 2);
  }

  // File 1 holds `spec "s"`, whose only dependency is a function of file 0.
  function StringSpecResolution(): Resolution {
    Resolution([STRING_SPEC, Function_("f", 0)], map[0 := [1]], map[], map[0 := 1], {})
  }

  // Editing a string-named spec itself does not select it: it has no declaration,
  // so it is not counted as defined in the file it stands in.
  lemma StringNamedSpecIsMissed()
    ensures var r := StringSpecResolution(); var home := id => if id == 0 then 1 else 0;
      var m := Bodies(id => "", id => if id == 0 then [1] else []);
      && RecordsOnlySpecs(r) && Reflects(r, m, home, [1])
      && !Affected(r, [1], 0) && TouchesChange(m, home, [1], 0)
  {
    var r := StringSpecResolution();
    var m := Bodies(id => "", id => if id == 0 then [1] else []);
    assert r.DependenciesOf(0) == [1] && Roots(r, 0) == [1];
    forall id ensures id in SpecClosure(r, 0) <==> id == 1 { ClosureIsOneLevel(r, 0, id); }
    UsesSelf(m, 0);
  }
}
