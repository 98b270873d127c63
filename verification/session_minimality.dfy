// What edits re-execute in the session, over its whole life.

module SessionMinimality {
  import opened QueryModel
  import opened FrontEnd
  import opened SpecClosures
  import opened SessionHost
  import opened SessionClaims
  import opened SessionTruth
  import opened EngineStore
  import opened EngineRun
  import EngineLives
  import opened EngineMinimality
  import opened IncrementalSessions

  // The value each kind of query slices out of a program.
  function Slice(stages: Stages, p: Program, k: Key): Value {
    if k.kind == PARSE then ParseDigestOf(stages, p, k.arg)
    else if k.kind == INTERFACE then BuildInterface(p, k.arg)
    else if k.kind == RESOLUTION then BuildResolutionDigest(p.resolution)
    else if k.kind == SPEC_GRAPH then BuildSpecGraphDigest(p.resolution)
    else if k.kind == TYPE_OF then TypeOf(p, k.arg)
    else if k.kind == FN_BODY then BodyOf(p, k.arg)
    else if k.kind == MIR_OF then MirTextOf(p, k.arg)
    else if k.kind == SPEC_DEPS then SpecDeps(SpecClosure(p.resolution, k.arg))
    else FileSet(0)
  }

  function SliceNow(w: World, texts: seq<string>, k: Key): Value {
    Slice(w.stages, ProgramOf(w, texts), k)
  }

  lemma RetIsSlice(stages: Stages, p: Program, k: Key, read: seq<Value>)
    requires Compute(stages, p, k, read).Ret?
    ensures Compute(stages, p, k, read).value == Slice(stages, p, k)
  {}

  // ---- The life of a session ----

  // Any number of queries asked at one revision: what ran holds what the session's
  // programs returned.
  ghost predicate Answered(w: World, texts: seq<string>, s0: Store<Value>, s1: Store<Value>) {
    Evolves(Rank, s0, s1, 6) && forall k :: Ran(s0, s1, k) ==> Produced(HostNow(w, texts), s1, k)
  }

  lemma OneQueryIsAnswered(w: World, texts: seq<string>, s0: Store<Value>, s1: Store<Value>, key: Key)
    requires Rank(key) <= 5
    requires Serves(HostNow(w, texts), ClaimsNow(w, texts), s0, s1, key, Rank(key) + 1)
    ensures Answered(w, texts, s0, s1)
  {
    EvolvesWiden(Rank, s0, s1, Rank(key) + 1, 6);
  }

  lemma MoreAreAnswered(w: World, texts: seq<string>, s0: Store<Value>, s1: Store<Value>, s2: Store<Value>)
    requires Bounded(s1) && Answered(w, texts, s0, s1) && Answered(w, texts, s1, s2)
    ensures Answered(w, texts, s0, s2)
  {
    EvolvesTrans(Rank, s0, s1, s2, 6, 6, 6);
    forall k | Ran(s0, s2, k) ensures Produced(HostNow(w, texts), s2, k) {
      RanSplits(s0, s1, s2, k);
      if !Ran(s1, s2, k) { ConfirmedStays(Rank, s1, s2, 6, k); }
    }
  }

  // What ran is the slice of the program, tracked or not.
  lemma RanIsSlice(w: World, texts: seq<string>, s0: Store<Value>, s1: Store<Value>, k: Key)
    requires Answered(w, texts, s0, s1) && Ran(s0, s1, k)
    ensures k in s1.memos && s1.memos[k].value == SliceNow(w, texts, k)
  {
    assert Produced(HostNow(w, texts), s1, k);
    var read :| Transcript(HostNow(w, texts), k, read, s1.memos[k].deps, s1.memos[k].value);
    RetIsSlice(w.stages, ProgramOf(w, texts), k, read);
  }

  datatype Moment = Moment(texts: seq<string>, store: Store<Value>)

  // What every valid session holds.
  ghost predicate Sound(w: World, m: Moment) {
    Grounded(w, m.texts) && Inv(ClaimsNow(w, m.texts), m.store) && AllWired(m.store)
  }

  // The file was set in this step, whether or not its text changed.
  ghost predicate Touched(m0: Moment, m1: Moment, file: nat) {
    Stamp(m1.store, SourceKey(file)) > m0.store.revision
  }

  ghost predicate TouchFits(m0: Moment, m1: Moment, file: nat) {
    Touched(m0, m1, file) || (
      && Stamp(m1.store, SourceKey(file)) == Stamp(m0.store, SourceKey(file))
      && LatestText(m1.texts, file) == LatestText(m0.texts, file))
  }

  // Any number of files were set, old or new; nothing was asked.
  ghost predicate FilesSet(m0: Moment, m1: Moment) {
    EngineLives.Stamped(Rank, m0.store, m1.store) && forall file: nat :: TouchFits(m0, m1, file)
  }

  ghost predicate StepAt(w: World, run: seq<Moment>, n: nat)
    requires n + 1 < |run|
  {
    || FilesSet(run[n], run[n + 1])
    || (run[n + 1].texts == run[n].texts && Answered(w, run[n].texts, run[n].store, run[n + 1].store))
  }

  // The moments a session passes through, from any valid state on.
  ghost predicate SessionLife(w: World, run: seq<Moment>) {
    && (forall n :: 0 <= n < |run| ==> Sound(w, run[n]))
    && (forall n :: 0 <= n < |run| - 1 ==> StepAt(w, run, n))
  }

  function Stores(run: seq<Moment>): seq<Store<Value>> {
    seq(|run|, n requires 0 <= n < |run| => run[n].store)
  }

  lemma LivesAsEngine(w: World, run: seq<Moment>)
    requires SessionLife(w, run)
    ensures EngineLives.Life(Rank, Stores(run))
  {
    forall n | 0 <= n < |run| - 1 ensures EngineLives.NextAt(Rank, Stores(run), n) {
      assert StepAt(w, run, n);
      if !FilesSet(run[n], run[n + 1]) { EngineLives.AskingIsAStep(Rank, run[n].store, run[n + 1].store, 6); }
    }
  }

  ghost predicate UpToDate(m: Moment, k: Key) {
    k in m.store.memos && m.store.memos[k].verifiedAt == m.store.revision
  }

  // Nothing happens to the key between two moments.
  ghost predicate NotRun(run: seq<Moment>, i: nat, j: nat, k: Key)
    requires i <= j < |run|
  {
    forall n :: i <= n < j ==> NotRunAt(run, n, k)
  }

  ghost predicate NotRunAt(run: seq<Moment>, n: nat, k: Key)
    requires n + 1 < |run|
  {
    Grew(run[n].store, run[n + 1].store) && !Ran(run[n].store, run[n + 1].store, k)
  }

  ghost predicate Steady(run: seq<Moment>, i: nat, j: nat, d: Key)
    requires i <= j < |run|
  {
    forall n :: i <= n < j ==> !EngineLives.MovedAt(Stores(run), n, d)
  }

  ghost predicate KeepsValue(run: seq<Moment>, i: nat, j: nat, k: Key)
    requires i <= j < |run|
  {
    k in run[i].store.memos && k in run[j].store.memos && run[j].store.memos[k].value == run[i].store.memos[k].value
  }

  ghost predicate DepsSteady(run: seq<Moment>, i: nat, j: nat, k: Key)
    requires i <= j < |run| && k in run[i].store.memos
  {
    forall d :: d in run[i].store.memos[k].deps ==> Steady(run, i, j, d)
  }

  lemma KeptUntil(w: World, run: seq<Moment>, i: nat, n: nat, j: nat, k: Key)
    requires SessionLife(w, run) && i <= n <= j < |run| && UpToDate(run[i], k) && DepsSteady(run, i, j, k)
    ensures KeepsValue(run, i, n, k)
    ensures forall m :: i <= m < n ==> NotRunAt(run, m, k)
  {
    hide Sound, SessionLife, EngineLives.Life, EngineLives.MovedAt, Grounded, AllWired, Inv;
    var stores := Stores(run);
    LivesAsEngine(w, run);
    SoundInv(w, run, i);
    forall m, d | i <= m < n && d in stores[i].memos[k].deps ensures !EngineLives.MovedAt(stores, m, d) {
      assert Steady(run, i, j, d);
    }
    KeepsWhileDepsKeep(ClaimsNow(w, run[i].texts), stores, i, n, k);
    forall m | i <= m < n ensures NotRunAt(run, m, k) {
      assert Grew(stores[m], stores[m + 1]) && !Ran(stores[m], stores[m + 1], k);
    }
  }

  // Early cutoff in the session: while nothing a confirmed key had recorded moves,
  // it is not executed and does not move either.
  lemma NotExecuted(w: World, run: seq<Moment>, i: nat, j: nat, k: Key)
    requires SessionLife(w, run) && i <= j < |run| && UpToDate(run[i], k) && DepsSteady(run, i, j, k)
    ensures NotRun(run, i, j, k) && KeepsValue(run, i, j, k) && Steady(run, i, j, k)
  {
    hide SessionLife, DepsSteady;
    KeptUntil(w, run, i, j, j, k);
    forall n | i <= n < j ensures !EngineLives.MovedAt(Stores(run), n, k) {
      KeptUntil(w, run, i, n, j, k);
      KeptUntil(w, run, i, n + 1, j, k);
    }
  }

  lemma SoundInv(w: World, run: seq<Moment>, i: nat)
    requires SessionLife(w, run) && i < |run|
    ensures Inv(ClaimsNow(w, run[i].texts), run[i].store) && Grounded(w, run[i].texts) && AllWired(run[i].store)
    ensures ClaimsNow(w, run[i].texts).rank == Rank
  {
    assert Sound(w, run[i]);
  }

  // ---- What a confirmed memo holds ----

  // The kinds whose values are functions of tracked inputs.
  ghost predicate Trusted(w: World, texts: seq<string>, k: Key) {
    || k.kind == PARSE || k == RESOLUTION_KEY || k == SPEC_GRAPH_KEY || k.kind == SPEC_DEPS
    || (k.kind == INTERFACE && InterfacesLocal(w))
    || (k.kind == TYPE_OF && InterfacesLocal(w) && DeclaredItem(w, texts, k.arg))
  }

  lemma TrustedIsSlice(w: World, texts: seq<string>, k: Key)
    requires Grounded(w, texts) && Trusted(w, texts, k)
    ensures Eval(ClaimsNow(w, texts), k) == Value(SliceNow(w, texts, k))
  {
    hide Grounded, InterfacesLocal, DeclaredItem, BuildInterface, TypeOf;
    if k.kind == PARSE { EvalParse(w, texts, k.arg); }
    else if k == RESOLUTION_KEY { EvalWholeProgram(w, texts, false); }
    else if k == SPEC_GRAPH_KEY { EvalWholeProgram(w, texts, true); }
    else if k.kind == SPEC_DEPS { EvalSpecDeps(w, texts, k.arg); }
    else if k.kind == INTERFACE { EvalInterface(w, texts, k.arg); }
    else { EvalTypeOf(w, texts, k.arg); }
  }

  // Whatever a session went through, a confirmed memo of such a kind is the slice
  // of the current program.
  lemma ConfirmedIsSlice(w: World, run: seq<Moment>, n: nat, k: Key)
    requires SessionLife(w, run) && n < |run| && UpToDate(run[n], k) && Trusted(w, run[n].texts, k)
    ensures run[n].store.memos[k].value == SliceNow(w, run[n].texts, k)
  {
    hide SessionLife, Grounded, AllWired, Trusted, SliceNow, Inv;
    SoundInv(w, run, n);
    TrustedIsSlice(w, run[n].texts, k);
    FreshEval(ClaimsNow(w, run[n].texts), run[n].store, k);
  }

  lemma DepsConfirmed(w: World, run: seq<Moment>, i: nat, k: Key)
    requires SessionLife(w, run) && i < |run| && UpToDate(run[i], k)
    ensures forall d :: d in run[i].store.memos[k].deps ==> MayRead(k, d) && (Rank(d) > 0 ==> UpToDate(run[i], d))
  {
    hide SessionLife, Grounded;
    SoundInv(w, run, i);
    var s, h := run[i].store, ClaimsNow(w, run[i].texts);
    assert Wired(k, s.memos[k]);
    assert MemoHolds(h, s, k, s.memos[k], s.read[k]);
    forall d | d in s.memos[k].deps && Rank(d) > 0 ensures UpToDate(run[i], d) {
      var n :| 0 <= n < |s.memos[k].deps| && s.memos[k].deps[n] == d;
      assert DepHolds(h, s, k, s.memos[k].verifiedAt, s.memos[k].deps[n], s.read[k][n]);
    }
  }

  // The slice stays what it was, at every moment in between.
  ghost predicate SameSlice(w: World, run: seq<Moment>, i: nat, j: nat, d: Key)
    requires i <= j < |run|
  {
    forall n :: i <= n <= j ==> SliceNow(w, run[n].texts, d) == SliceNow(w, run[i].texts, d)
  }

  lemma SliceStep(w: World, run: seq<Moment>, n: nat, d: Key, v: Value)
    requires SessionLife(w, run) && n + 1 < |run|
    requires d in run[n].store.memos && run[n].store.memos[d].value == v == SliceNow(w, run[n + 1].texts, d)
    ensures d in run[n + 1].store.memos && run[n + 1].store.memos[d].value == v
    ensures !EngineLives.MovedAt(Stores(run), n, d)
  {
    hide SliceNow, Sound;
    assert StepAt(w, run, n);
    var s0, s1 := run[n].store, run[n + 1].store;
    if !FilesSet(run[n], run[n + 1]) {
      assert Stepped(MemoAt(s0, d), s1.memos[d], Ran(s0, s1, d), s1.revision);
      if Ran(s0, s1, d) { RanIsSlice(w, run[n].texts, s0, s1, d); }
    }
  }

  // A memo that holds its slice, while the slice stays, does not move, executed
  // again or not.
  lemma {:induction false} SliceIsSteady(w: World, run: seq<Moment>, i: nat, j: nat, d: Key)
    requires SessionLife(w, run) && i <= j < |run| && d in run[i].store.memos
    requires run[i].store.memos[d].value == SliceNow(w, run[i].texts, d) && SameSlice(w, run, i, j, d)
    ensures Steady(run, i, j, d) && KeepsValue(run, i, j, d)
    decreases j
  {
    hide SliceNow, SessionLife, EngineLives.MovedAt;
    if i < j {
      SliceIsSteady(w, run, i, j - 1, d);
      SliceStep(w, run, j - 1, d, run[i].store.memos[d].value);
    }
  }

  lemma TrustedIsSteady(w: World, run: seq<Moment>, i: nat, j: nat, d: Key)
    requires SessionLife(w, run) && i <= j < |run| && UpToDate(run[i], d) && Trusted(w, run[i].texts, d)
    requires SameSlice(w, run, i, j, d)
    ensures Steady(run, i, j, d)
  {
    hide SessionLife, SliceNow, Trusted;
    ConfirmedIsSlice(w, run, i, d);
    SliceIsSteady(w, run, i, j, d);
  }

  // ---- What edits leave alone ----

  ghost predicate Untouched(run: seq<Moment>, i: nat, j: nat, file: nat)
    requires i <= j < |run|
  {
    forall n :: i <= n < j ==> UntouchedAt(run, n, file)
  }

  ghost predicate UntouchedAt(run: seq<Moment>, n: nat, file: nat)
    requires n + 1 < |run|
  {
    Stamp(run[n + 1].store, SourceKey(file)) == Stamp(run[n].store, SourceKey(file))
  }

  ghost predicate SameText(run: seq<Moment>, i: nat, j: nat, file: nat)
    requires i <= j < |run|
  {
    forall n :: i <= n <= j ==> LatestText(run[n].texts, file) == LatestText(run[i].texts, file)
  }

  ghost predicate SameResolution(w: World, run: seq<Moment>, i: nat, j: nat)
    requires i <= j < |run|
  {
    forall n :: i <= n <= j ==> ResolutionOf(w, run[n].texts) == ResolutionOf(w, run[i].texts)
  }

  ghost predicate SameSignatures(w: World, t0: seq<string>, t1: seq<string>) {
    && ResolutionOf(w, t1) == ResolutionOf(w, t0)
    && forall f :: BuildInterface(ProgramOf(w, t1), f) == BuildInterface(ProgramOf(w, t0), f)
  }

  ghost predicate SignaturesStay(w: World, run: seq<Moment>, i: nat, j: nat)
    requires i <= j < |run|
  {
    forall n :: i <= n <= j ==> SameSignatures(w, run[i].texts, run[n].texts)
  }

  // A file that is not set is not parsed again.
  lemma NoOtherFileIsParsed(w: World, run: seq<Moment>, i: nat, j: nat, file: nat)
    requires SessionLife(w, run) && i <= j < |run| && Untouched(run, i, j, file)
    requires UpToDate(run[i], ParseKey(file))
    ensures NotRun(run, i, j, ParseKey(file))
  {
    hide SessionLife;
    DepsConfirmed(w, run, i, ParseKey(file));
    NoSourceMemo(w, run, file);
    forall d | d in run[i].store.memos[ParseKey(file)].deps ensures Steady(run, i, j, d) {
      assert d == SourceKey(file);
      forall n | i <= n < j ensures !EngineLives.MovedAt(Stores(run), n, d) {
        assert UntouchedAt(run, n, file);
      }
    }
    NotExecuted(w, run, i, j, ParseKey(file));
  }

  lemma NoSourceMemo(w: World, run: seq<Moment>, file: nat)
    requires SessionLife(w, run)
    ensures forall n :: 0 <= n < |run| ==> SourceKey(file) !in run[n].store.memos
  {
    forall n | 0 <= n < |run| ensures SourceKey(file) !in run[n].store.memos {
      SoundInv(w, run, n);
    }
  }

  lemma TextGivesSlice(w: World, run: seq<Moment>, i: nat, j: nat, file: nat)
    requires i <= j < |run| && SameText(run, i, j, file)
    ensures SameSlice(w, run, i, j, ParseKey(file))
  {}

  lemma ResolutionGivesSlice(w: World, run: seq<Moment>, i: nat, j: nat)
    requires i <= j < |run| && SameResolution(w, run, i, j)
    ensures SameSlice(w, run, i, j, RESOLUTION_KEY)
  {}

  lemma SignaturesGiveSlices(w: World, run: seq<Moment>, i: nat, j: nat, file: nat)
    requires i <= j < |run| && SignaturesStay(w, run, i, j)
    ensures SameSlice(w, run, i, j, InterfaceKey(file)) && SameSlice(w, run, i, j, RESOLUTION_KEY)
  {
    forall n | i <= n <= j ensures SameSignatures(w, run[i].texts, run[n].texts) {}
  }

  // Edits that leave a file's text and the symbol structure as they were do not
  // re-slice its interface.
  lemma NoOtherInterfaceIsResliced(w: World, run: seq<Moment>, i: nat, j: nat, file: nat)
    requires SessionLife(w, run) && i <= j < |run| && SameText(run, i, j, file) && SameResolution(w, run, i, j)
    requires UpToDate(run[i], InterfaceKey(file))
    ensures NotRun(run, i, j, InterfaceKey(file)) && KeepsValue(run, i, j, InterfaceKey(file))
  {
    hide SessionLife, SameSlice, Steady;
    var k := InterfaceKey(file);
    DepsConfirmed(w, run, i, k);
    TextGivesSlice(w, run, i, j, file);
    ResolutionGivesSlice(w, run, i, j);
    forall d | d in run[i].store.memos[k].deps ensures Steady(run, i, j, d) {
      TrustedIsSteady(w, run, i, j, d);
    }
    NotExecuted(w, run, i, j, k);
  }

  // The interfaces the session is up to date with are those of its program: always,
  // where interfaces are local, and in a session asked for the first time.
  ghost predicate InterfacesRight(w: World, m: Moment) {
    forall file :: UpToDate(m, InterfaceKey(file)) ==>
      m.store.memos[InterfaceKey(file)].value == BuildInterface(ProgramOf(w, m.texts), file)
  }

  lemma LocalInterfacesAreRight(w: World, run: seq<Moment>, n: nat)
    requires SessionLife(w, run) && n < |run| && InterfacesLocal(w)
    ensures InterfacesRight(w, run[n])
  {
    hide SessionLife, InterfacesLocal;
    forall file | UpToDate(run[n], InterfaceKey(file))
      ensures run[n].store.memos[InterfaceKey(file)].value == BuildInterface(ProgramOf(w, run[n].texts), file)
    {
      ConfirmedIsSlice(w, run, n, InterfaceKey(file));
    }
  }

  // Edits that keep every signature re-check none...
  lemma NoTypeIsRechecked(w: World, run: seq<Moment>, i: nat, j: nat, symbol: nat)
    requires SessionLife(w, run) && i <= j < |run| && InterfacesRight(w, run[i]) && SignaturesStay(w, run, i, j)
    requires UpToDate(run[i], TypeOfKey(symbol))
    ensures NotRun(run, i, j, TypeOfKey(symbol)) && Steady(run, i, j, TypeOfKey(symbol))
  {
    hide SessionLife, SameSlice, Steady, SignaturesStay, BuildInterface;
    var k := TypeOfKey(symbol);
    DepsConfirmed(w, run, i, k);
    forall d | d in run[i].store.memos[k].deps ensures Steady(run, i, j, d) {
      SignaturesGiveSlices(w, run, i, j, d.arg);
      if d == RESOLUTION_KEY {
        TrustedIsSteady(w, run, i, j, d);
      } else {
        assert d == InterfaceKey(d.arg);
        SliceIsSteady(w, run, i, j, d);
      }
    }
    NotExecuted(w, run, i, j, k);
  }

  // Edits that do not reach a function's body hash: the files its parses were read
  // from keep their texts, or the hash held is the current one and stays so.
  ghost predicate BodyUnreached(w: World, run: seq<Moment>, i: nat, j: nat, symbol: nat)
    requires i <= j < |run|
  {
    BodyKey(symbol) in run[i].store.memos ==>
      || (forall d :: d in run[i].store.memos[BodyKey(symbol)].deps ==> SameText(run, i, j, d.arg))
      || (run[i].store.memos[BodyKey(symbol)].value == BodyOf(ProgramOf(w, run[i].texts), symbol)
          && SameSlice(w, run, i, j, BodyKey(symbol)))
  }

  lemma BodyIsSteady(w: World, run: seq<Moment>, i: nat, j: nat, symbol: nat)
    requires SessionLife(w, run) && i <= j < |run| && BodyUnreached(w, run, i, j, symbol)
    requires UpToDate(run[i], BodyKey(symbol))
    ensures Steady(run, i, j, BodyKey(symbol))
  {
    hide SessionLife, SameSlice, Steady, SameText;
    var k := BodyKey(symbol);
    if forall d :: d in run[i].store.memos[k].deps ==> SameText(run, i, j, d.arg) {
      DepsConfirmed(w, run, i, k);
      forall d | d in run[i].store.memos[k].deps ensures Steady(run, i, j, d) {
        TextGivesSlice(w, run, i, j, d.arg);
        TrustedIsSteady(w, run, i, j, d);
      }
      NotExecuted(w, run, i, j, k);
    } else {
      SliceIsSteady(w, run, i, j, k);
    }
  }

  // ...and lower again only functions whose own text changed.
  lemma OnlyEditedBodiesAreLowered(w: World, run: seq<Moment>, i: nat, j: nat, symbol: nat)
    requires SessionLife(w, run) && i <= j < |run| && InterfacesRight(w, run[i]) && SignaturesStay(w, run, i, j)
    requires BodyUnreached(w, run, i, j, symbol) && UpToDate(run[i], MirOfKey(symbol))
    ensures NotRun(run, i, j, MirOfKey(symbol)) && KeepsValue(run, i, j, MirOfKey(symbol))
  {
    hide SessionLife, Steady, InterfacesRight, SignaturesStay, BodyUnreached;
    var k := MirOfKey(symbol);
    DepsConfirmed(w, run, i, k);
    forall d | d in run[i].store.memos[k].deps ensures Steady(run, i, j, d) {
      if d == TypeOfKey(symbol) {
        NoTypeIsRechecked(w, run, i, j, symbol);
      } else {
        BodyIsSteady(w, run, i, j, symbol);
      }
    }
    NotExecuted(w, run, i, j, k);
  }

  // Edits that keep the spec graph too re-run no spec query.
  lemma NoSpecGraphIsRewalked(w: World, run: seq<Moment>, i: nat, j: nat, spec: nat)
    requires SessionLife(w, run) && i <= j < |run| && InterfacesRight(w, run[i]) && SignaturesStay(w, run, i, j)
    requires SameSlice(w, run, i, j, SPEC_GRAPH_KEY) && UpToDate(run[i], SpecDepsKey(spec))
    ensures NotRun(run, i, j, SpecDepsKey(spec)) && KeepsValue(run, i, j, SpecDepsKey(spec))
  {
    hide SessionLife, Steady, InterfacesRight, SignaturesStay, SameSlice;
    var k := SpecDepsKey(spec);
    DepsConfirmed(w, run, i, k);
    forall d | d in run[i].store.memos[k].deps ensures Steady(run, i, j, d) {
      if d == SPEC_GRAPH_KEY {
        TrustedIsSteady(w, run, i, j, d);
      } else {
        NoTypeIsRechecked(w, run, i, j, d.arg);
      }
    }
    NotExecuted(w, run, i, j, k);
  }
}
