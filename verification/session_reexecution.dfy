// What edits do re-execute: what each query records as read, and that a query whose
// dependency holds another value is computed again.

module SessionReexecution {
  import opened QueryModel
  import opened FrontEnd
  import opened SpecClosures
  import opened SessionHost
  import opened SessionClaims
  import opened SessionTruth
  import opened EngineStore
  import opened EngineRun
  import EngineLives
  import opened EngineMinimality
  import opened Digests
  import opened IncrementalSessions
  import opened SessionMinimality
  import opened SessionReplay
  import opened SessionStaleness

  // ---- What the untracked kinds record ----

  // A lowered function depends on its signature and its own body...
  lemma MirRecords(stages: Stages, p: Program, symbol: nat, read: seq<Value>, deps: seq<Key>, v: Value)
    requires Transcript(HostOf(stages, p), MirOfKey(symbol), read, deps, v)
    ensures deps == [TypeOfKey(symbol), BodyKey(symbol)]
  {
    var h, k := HostOf(stages, p), MirOfKey(symbol);
    assert h.step(k, read) == MirOfStep(p, symbol, read);
    assert |deps| >= 2;
    StepAsks(stages, p, k, deps, read, 0);
    StepAsks(stages, p, k, deps, read, 1);
    if |deps| > 2 { StepAsks(stages, p, k, deps, read, 2); }
  }

  // ...the hash of a body on the parse of the file that declares it...
  lemma BodyRecords(stages: Stages, p: Program, symbol: nat, read: seq<Value>, deps: seq<Key>, v: Value)
    requires Transcript(HostOf(stages, p), BodyKey(symbol), read, deps, v)
    ensures var file := p.resolution.DefiningFile(symbol);
      deps == if file.Some? then [ParseKey(file.value)] else []
  {
    var h, k := HostOf(stages, p), BodyKey(symbol);
    assert h.step(k, read) == FnBodyStep(p, symbol, read);
    if |deps| > 0 { StepAsks(stages, p, k, deps, read, 0); }
    if |deps| > 1 { StepAsks(stages, p, k, deps, read, 1); }
  }

  // ...and a spec's closure on the spec graph and the type of every function in it.
  lemma SpecRecords(stages: Stages, p: Program, spec: nat, read: seq<Value>, deps: seq<Key>, v: Value, d: Key)
    requires Transcript(HostOf(stages, p), SpecDepsKey(spec), read, deps, v)
    ensures d in deps <==> (
      || d == SPEC_GRAPH_KEY
      || (d == TypeOfKey(d.arg) && d.arg in SpecClosure(p.resolution, spec)
          && p.resolution.KindOf(d.arg) == Some(Function)))
  {
    hide SpecClosure, HostAsked;
    var h, k := HostOf(stages, p), SpecDepsKey(spec);
    var closure := SpecClosure(p.resolution, spec);
    var functions := FunctionsIn(p.resolution, closure);
    FunctionsAre(p.resolution, closure, d.arg);
    SameLength(h, k, deps, read);
    assert h.step(k, read) == SpecDepsStep(p, spec, read);
    assert |deps| >= |functions| + 1;
    if |deps| > |functions| + 1 { StepAsks(stages, p, k, deps, read, |functions| + 1); }
    forall i | 0 <= i < |deps|
      ensures deps[i] == if i == 0 then SPEC_GRAPH_KEY else TypeOfKey(functions[i - 1])
    {
      StepAsks(stages, p, k, deps, read, i);
    }
    assert deps[0] == SPEC_GRAPH_KEY;
    if d in deps {
      var i :| 0 <= i < |deps| && deps[i] == d;
      assert i > 0 ==> functions[i - 1] in functions;
    }
    if d == TypeOfKey(d.arg) && d.arg in functions {
      var i :| 0 <= i < |functions| && functions[i] == d.arg;
      assert deps[i + 1] == d;
    }
  }

  lemma SameLength(h: Host<Value>, k: Key, deps: seq<Key>, read: seq<Value>)
    requires HostAsked(h, k, deps, read)
    ensures |read| == |deps|
  {}

  lemma StepAsks(stages: Stages, p: Program, k: Key, deps: seq<Key>, read: seq<Value>, i: nat)
    requires HostAsked(HostOf(stages, p), k, deps, read) && i < |deps|
    ensures |read| == |deps| && |read[..i]| == i
    ensures Compute(stages, p, k, read[..i]).Asks() && Compute(stages, p, k, read[..i]).key == deps[i]
  {
    assert HostOf(stages, p).step(k, read[..i]) == Compute(stages, p, k, read[..i]);
  }

  lemma {:induction false} FunctionsAre(r: Resolution, closure: seq<nat>, id: nat)
    ensures id in FunctionsIn(r, closure) <==> id in closure && r.KindOf(id) == Some(Function)
  {
    if closure != [] { FunctionsAre(r, closure[1..], id); }
  }

  // ---- A changed dependency re-executes ----

  // In any session life: a query confirmed at two moments between which it did not run
  // has dependencies that hold what they held.
  lemma ReusedOnlyIfSame(w: World, run: seq<Moment>, i: nat, j: nat, k: Key, d: Key)
    requires SessionLife(w, run) && i <= j < |run| && UpToDate(run[i], k) && UpToDate(run[j], k)
    requires NotRun(run, i, j, k) && d in run[i].store.memos[k].deps && Rank(d) > 0
    ensures UpToDate(run[i], d) && UpToDate(run[j], d)
    ensures run[j].store.memos[d].value == run[i].store.memos[d].value
  {
    hide SessionLife, EngineLives.Life, Inv, Grounded, AllWired;
    SoundInv(w, run, i);
    SoundInv(w, run, j);
    LivesAsEngine(w, run);
    var stores := Stores(run);
    forall n | i <= n < j ensures Grew(stores[n], stores[n + 1]) && !Ran(stores[n], stores[n + 1], k) {
      assert NotRunAt(run, n, k);
    }
    ReuseIsJustified(ClaimsNow(w, run[i].texts), ClaimsNow(w, run[j].texts), stores, i, j, k, d);
    UnrunIsSame(Rank, stores, i, j, k);
    DepsConfirmed(w, run, i, k);
    DepsConfirmed(w, run, j, k);
  }

  // ---- An edited body is lowered again ----

  // The key was executed when asked the second time.
  ghost predicate RanAgain(run: seq<Moment>, k: Key)
    requires |run| == 4 && Grew(run[2].store, run[3].store)
  {
    Ran(run[2].store, run[3].store, k)
  }

  lemma VisitGrows(w: World, t0: seq<string>, t1: seq<string>, run: seq<Moment>)
    requires Visit(w, t0, t1, run)
    ensures Grew(run[2].store, run[3].store)
    ensures forall k :: NotRunAt(run, 1, k) && (RanAgain(run, k) || NotRunAt(run, 2, k))
  {
    hide SessionLife;
  }

  // In a session that asks, edits and asks again, a query that did not run the second
  // time answers with dependencies that hold what they held the first time.
  lemma SecondIsReuse(w: World, t0: seq<string>, t1: seq<string>, run: seq<Moment>, k: Key, d: Key)
    requires Visit(w, t0, t1, run) && UpToDate(run[1], k) && UpToDate(run[3], k) && Grew(run[2].store, run[3].store)
    requires !RanAgain(run, k) && d in run[1].store.memos[k].deps && Rank(d) > 0
    ensures UpToDate(run[1], d) && UpToDate(run[3], d)
    ensures run[3].store.memos[d].value == run[1].store.memos[d].value
  {
    hide SessionLife, Answered, UpToDate, NotRunAt, FilesSet, RanAgain;
    VisitGrows(w, t0, t1, run);
    forall n | 1 <= n < 3 ensures NotRunAt(run, n, k) {
      assert n == 1 || n == 2;
    }
    ReusedOnlyIfSame(w, run, 1, 3, k, d);
  }

  // The edit reaches what the query of the function's body sees: the file that declares
  // the function holds another text, and its declaration hashes to something else.
  ghost predicate BodyEdited(w: World, t0: seq<string>, t1: seq<string>, symbol: nat) {
    var file := w.stages.resolve(t0).DefiningFile(symbol);
    && file.Some? && LatestText(t0, file.value) != LatestText(t1, file.value)
    && BodyOf(ProgramOf(w, t0), symbol) != BodyOf(ProgramOf(w, t1), symbol)
  }

  lemma ParseTellsTexts(w: World, t0: seq<string>, t1: seq<string>, file: nat)
    requires NoCollision(w) && Over(w, t0) && Over(w, t1)
    requires ParseDigestOf(w.stages, ProgramOf(w, t0), file) == ParseDigestOf(w.stages, ProgramOf(w, t1), file)
    ensures LatestText(t0, file) == LatestText(t1, file)
  {}

  lemma FirstDeps(w: World, m: Moment, symbol: nat)
    requires Primed(w, m)
    ensures MirOfKey(symbol) in m.store.memos ==>
      m.store.memos[MirOfKey(symbol)].deps == [TypeOfKey(symbol), BodyKey(symbol)]
    ensures var file := w.stages.resolve(m.texts).DefiningFile(symbol);
      BodyKey(symbol) in m.store.memos && file.Some? ==>
        m.store.memos[BodyKey(symbol)].deps == [ParseKey(file.value)]
  {
    var p, memos := ProgramOf(w, m.texts), m.store.memos;
    var mir, body := MirOfKey(symbol), BodyKey(symbol);
    if mir in memos {
      var read :| Transcript(HostNow(w, m.texts), mir, read, memos[mir].deps, memos[mir].value);
      MirRecords(w.stages, p, symbol, read, memos[mir].deps, memos[mir].value);
    }
    if body in memos {
      var read :| Transcript(HostNow(w, m.texts), body, read, memos[body].deps, memos[body].value);
      BodyRecords(w.stages, p, symbol, read, memos[body].deps, memos[body].value);
    }
  }

  lemma LifeIsOver(w: World, run: seq<Moment>, n: nat)
    requires SessionLife(w, run) && n < |run|
    ensures NoCollision(w) && Over(w, run[n].texts)
  {
    assert Sound(w, run[n]);
  }

  lemma EditedBodyRan(w: World, t0: seq<string>, t1: seq<string>, run: seq<Moment>, symbol: nat)
    requires Visit(w, t0, t1, run) && UpToDate(run[1], BodyKey(symbol)) && UpToDate(run[3], BodyKey(symbol))
    requires BodyEdited(w, t0, t1, symbol) && Grew(run[2].store, run[3].store)
    ensures RanAgain(run, BodyKey(symbol))
  {
    hide SessionLife, Answered, FilesSet, RanAgain, BodyOf, Primed, Over, NoCollision, CompileWholeProgram;
    var body, parse := BodyKey(symbol), ParseKey(w.stages.resolve(t0).DefiningFile(symbol).value);
    FirstIsPrimed(w, t0, t1, run);
    FirstDeps(w, run[1], symbol);
    if !RanAgain(run, body) {
      SecondIsReuse(w, t0, t1, run, body, parse);
      ConfirmedIsSlice(w, run, 1, parse);
      ConfirmedIsSlice(w, run, 3, parse);
      LifeIsOver(w, run, 1);
      LifeIsOver(w, run, 3);
      ParseTellsTexts(w, t0, t1, parse.arg);
    }
  }

  lemma RanIsCurrent(w: World, t0: seq<string>, t1: seq<string>, run: seq<Moment>, k: Key)
    requires Visit(w, t0, t1, run) && Grew(run[2].store, run[3].store) && RanAgain(run, k)
    ensures k in run[3].store.memos && run[3].store.memos[k].value == SliceNow(w, t1, k)
  {
    hide SessionLife, FilesSet, SliceNow;
    RanIsSlice(w, t1, run[2].store, run[3].store, k);
  }

  // Such an edit lowers the function again, so the session answers with its MIR in the
  // program as it is.
  lemma EditedIsRelowered(w: World, t0: seq<string>, t1: seq<string>, run: seq<Moment>, symbol: nat)
    requires Visit(w, t0, t1, run) && UpToDate(run[1], MirOfKey(symbol)) && UpToDate(run[3], MirOfKey(symbol))
    requires BodyEdited(w, t0, t1, symbol)
    ensures run[3].store.memos[MirOfKey(symbol)].value == MirTextOf(ProgramOf(w, t1), symbol)
  {
    hide SessionLife, Answered, FilesSet, RanAgain, Primed, CompileWholeProgram, BodyEdited, UpToDate;
    var mir, body := MirOfKey(symbol), BodyKey(symbol);
    VisitGrows(w, t0, t1, run);
    if !RanAgain(run, mir) {
      FirstIsPrimed(w, t0, t1, run);
      IsThere(run[1], mir);
      FirstDeps(w, run[1], symbol);
      SecondIsReuse(w, t0, t1, run, mir, body);
      EditedBodyRan(w, t0, t1, run, symbol);
      RanIsCurrent(w, t0, t1, run, body);
      IsThere(run[1], body);
      FirstValue(w, t0, t1, run, body);
      BodiesDiffer(w, t0, t1, symbol);
    } else {
      RanIsCurrent(w, t0, t1, run, mir);
    }
  }

  lemma IsThere(m: Moment, k: Key)
    requires UpToDate(m, k)
    ensures k in m.store.memos
  {}

  lemma BodiesDiffer(w: World, t0: seq<string>, t1: seq<string>, symbol: nat)
    requires BodyEdited(w, t0, t1, symbol)
    ensures SliceNow(w, t0, BodyKey(symbol)) != SliceNow(w, t1, BodyKey(symbol))
  {}

  // End to end: a function asked for, edited, and asked for again.
  method EditedBodyIsLowered(stages: Stages, ghost w: World, t0: seq<string>, t1: seq<string>, symbol: nat)
      returns (answer: Value, ghost run: seq<Moment>)
    requires w.stages == stages && NoCollision(w) && WellResolved(w) && Over(w, t0) && Over(w, t1)
    requires 0 < |t0| <= |t1| && BodyEdited(w, t0, t1, symbol)
    ensures Visit(w, t0, t1, run) && Holds(run[3], MirOfKey(symbol), answer)
    ensures answer == MirTextOf(ProgramOf(w, t1), symbol)
  {
    hide SessionLife, NoCollision, WellResolved, Over, Answered, BodyEdited, CompileWholeProgram, Visit, UpToDate;
    var before;
    before, answer, run := AskEditAsk(stages, w, t0, t1, MirOfKey(symbol));
    EditedIsRelowered(w, t0, t1, run, symbol);
  }

  // ---- What digests tell between two moments ----

  // In any session life, the resolution digests a session holds at two moments are the
  // same exactly when the programs have the same symbols, by name and kind.
  lemma ResolutionsTell(w: World, run: seq<Moment>, i: nat, j: nat)
    requires SessionLife(w, run) && i <= j < |run|
    requires UpToDate(run[i], RESOLUTION_KEY) && UpToDate(run[j], RESOLUTION_KEY)
    ensures run[i].store.memos[RESOLUTION_KEY].value == run[j].store.memos[RESOLUTION_KEY].value
      <==> SameSymbols(w.stages.resolve(run[i].texts), w.stages.resolve(run[j].texts))
  {
    hide SessionLife, BuildResolutionDigest;
    ConfirmedIsSlice(w, run, i, RESOLUTION_KEY);
    ConfirmedIsSlice(w, run, j, RESOLUTION_KEY);
    ResolutionTellsExactly(w.stages.resolve(run[i].texts), w.stages.resolve(run[j].texts));
  }

  // And where interfaces are local, those of a file exactly when it declares the same
  // items, by name, kind, visibility and signature.
  lemma InterfacesTell(w: World, run: seq<Moment>, i: nat, j: nat, file: nat)
    requires SessionLife(w, run) && i <= j < |run| && InterfacesLocal(w)
    requires UpToDate(run[i], InterfaceKey(file)) && UpToDate(run[j], InterfaceKey(file))
    ensures run[i].store.memos[InterfaceKey(file)].value == run[j].store.memos[InterfaceKey(file)].value
      <==> forall id :: SameItem(ProgramOf(w, run[i].texts), ProgramOf(w, run[j].texts), file, id)
  {
    hide SessionLife, BuildInterface, InterfacesLocal, CompileWholeProgram;
    ConfirmedIsSlice(w, run, i, InterfaceKey(file));
    ConfirmedIsSlice(w, run, j, InterfaceKey(file));
    InterfaceTellsExactly(ProgramOf(w, run[i].texts), ProgramOf(w, run[j].texts), file);
  }

  // The spec graphs exactly when they have the same specs, targets and dependencies.
  lemma SpecGraphsTell(w: World, run: seq<Moment>, i: nat, j: nat)
    requires SessionLife(w, run) && i <= j < |run|
    requires UpToDate(run[i], SPEC_GRAPH_KEY) && UpToDate(run[j], SPEC_GRAPH_KEY)
    ensures run[i].store.memos[SPEC_GRAPH_KEY].value == run[j].store.memos[SPEC_GRAPH_KEY].value
      <==> forall id :: SameSpec(w.stages.resolve(run[i].texts), w.stages.resolve(run[j].texts), id)
  {
    hide SessionLife, BuildSpecGraphDigest;
    ConfirmedIsSlice(w, run, i, SPEC_GRAPH_KEY);
    ConfirmedIsSlice(w, run, j, SPEC_GRAPH_KEY);
    SpecGraphTellsExactly(w.stages.resolve(run[i].texts), w.stages.resolve(run[j].texts));
  }
}
