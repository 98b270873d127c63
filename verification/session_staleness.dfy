// The two queries that can be stale, exactly when they are, and sessions in which
// they are.

module SessionStaleness {
  import opened Decimals
  import opened QueryModel
  import opened FrontEnd
  import opened Lowerings
  import opened SessionHost
  import opened SessionClaims
  import opened SessionTruth
  import opened EngineStore
  import opened EngineRun
  import opened IncrementalSessions
  import opened SessionMinimality
  import opened SessionReplay

  // ---- A session asked for the first time ----

  // Every memo is up to date, holds its slice of the program, and records a run of
  // the session's own program for it.
  ghost predicate Primed(w: World, m: Moment) {
    forall k :: k in m.store.memos ==>
      UpToDate(m, k) && m.store.memos[k].value == SliceNow(w, m.texts, k) && Produced(HostNow(w, m.texts), m.store, k)
  }

  lemma FreshSessionIsPrimed(w: World, m0: Moment, m1: Moment)
    requires m0.store.memos == map[] && m1.texts == m0.texts && Answered(w, m0.texts, m0.store, m1.store)
    ensures Primed(w, m1)
  {
    forall k | k in m1.store.memos
      ensures UpToDate(m1, k) && m1.store.memos[k].value == SliceNow(w, m1.texts, k)
      ensures Produced(HostNow(w, m1.texts), m1.store, k)
    {
      assert Stepped(MemoAt(m0.store, k), m1.store.memos[k], Ran(m0.store, m1.store, k), m1.store.revision);
      RanIsSlice(w, m0.texts, m0.store, m1.store, k);
    }
  }

  // ---- Interfaces ----

  // An interface asked for at one moment and again later, its own text and the
  // resolution digest being the same at both and in between, is answered as before:
  // wrongly exactly where the two programs give the file different interfaces.
  lemma InterfaceIsRightExactly(w: World, run: seq<Moment>, i: nat, j: nat, file: nat)
    requires SessionLife(w, run) && i <= j < |run| && UpToDate(run[i], InterfaceKey(file))
    requires run[i].store.memos[InterfaceKey(file)].value == BuildInterface(ProgramOf(w, run[i].texts), file)
    requires SameText(run, i, j, file) && SameResolution(w, run, i, j)
    requires file < |run[i].texts| && file < |run[j].texts|
    ensures InterfaceKey(file) in run[j].store.memos
    ensures run[j].store.memos[InterfaceKey(file)].value == BuildInterface(ProgramOf(w, run[j].texts), file)
      <==> SameInterface(w, run[i].texts, run[j].texts, file)
  {
    hide SessionLife, BuildInterface, BuildResolutionDigest, NotRun;
    NoOtherInterfaceIsResliced(w, run, i, j, file);
  }

  // ---- MIR ----

  predicate IsLowered(w: World, texts: seq<string>, symbol: nat) { symbol in ProgramOf(w, texts).mir }

  predicate BothAccepted(w: World, t0: seq<string>, t1: seq<string>) {
    w.stages.accepts(t0) && w.stages.accepts(t1)
  }

  function BodyNow(w: World, texts: seq<string>, symbol: nat): Option<Body> {
    BodyFor(w.stages.bodies(texts), symbol)
  }

  // The function is declared in the same words.
  predicate SameDeclaration(w: World, t0: seq<string>, t1: seq<string>, symbol: nat) {
    var b0, b1 := BodyNow(w, t0, symbol), BodyNow(w, t1, symbol);
    (b0.Some? <==> b1.Some?) && (b0.Some? ==> b0.value.span.Some? && b0.value.span == b1.value.span)
  }

  // What lowering the function looks up elsewhere is the same: the values of the
  // consts it names, in whatever file, and the layouts of the types it uses.
  predicate LookupsStay(w: World, t0: seq<string>, t1: seq<string>, symbol: nat) {
    BodyNow(w, t0, symbol).Some? ==>
      SameAnswers(BodyNow(w, t0, symbol).value.outline, w.stages.answers(t0)(symbol), w.stages.answers(t1)(symbol))
  }

  // What lowering guarantees of accepted programs: a function has one body; signatures
  // and its own declaration fix its outline; and the rendered text shows the answers.
  ghost predicate LowersWell(w: World) {
    && (forall texts :: Over(w, texts) && w.stages.accepts(texts) ==> WellBodied(w.stages.bodies(texts)))
    && (forall t0, t1, symbol :: Over(w, t0) && Over(w, t1) && BothAccepted(w, t0, t1) && SameSignatures(w, t0, t1) ==>
          SameOutline(w, t0, t1, symbol))
  }

  // Every function's text starts with words of its own.
  predicate WellBodied(bodies: seq<Body>) {
    && OneBodyEach(bodies)
    && forall b :: b in bodies ==> b.outline != [] && b.outline[0].Words? && b.outline[0].text != ""
  }

  predicate SameOutline(w: World, t0: seq<string>, t1: seq<string>, symbol: nat) {
    SameDeclaration(w, t0, t1, symbol) && BodyNow(w, t0, symbol).Some? ==>
      && BodyNow(w, t1, symbol).value.outline == BodyNow(w, t0, symbol).value.outline
      && ReadsBack(BodyNow(w, t0, symbol).value.outline, w.stages.answers(t0)(symbol), w.stages.answers(t1)(symbol))
  }

  lemma {:induction false} BodyIsListed(bodies: seq<Body>, symbol: nat)
    ensures BodyFor(bodies, symbol).Some? ==> BodyFor(bodies, symbol).value in bodies
  {
    if bodies != [] { BodyIsListed(bodies[..|bodies| - 1], symbol); }
  }

  // What a program says of one function: lowered exactly when it is accepted and
  // answers every question, and then not to nothing.
  lemma LoweredNow(w: World, texts: seq<string>, symbol: nat)
    requires LowersWell(w) && Over(w, texts)
    ensures var b, answers := BodyNow(w, texts, symbol), w.stages.answers(texts)(symbol);
      && (IsLowered(w, texts, symbol) <==>
            w.stages.accepts(texts) && b.Some? && Fill(b.value.outline, answers).Some?)
      && (IsLowered(w, texts, symbol) ==>
            ProgramOf(w, texts).mir[symbol] == Fill(b.value.outline, answers).value != "")
  {
    hide SameOutline, SameSignatures;
    if w.stages.accepts(texts) {
      var bodies, answers := w.stages.bodies(texts), w.stages.answers(texts);
      assert WellBodied(bodies);
      AcceptedIsLowered(w.stages, texts);
      LoweredExactly(bodies, answers, symbol);
      BodyIsListed(bodies, symbol);
      var b := BodyFor(bodies, symbol);
      assert symbol in MirOf(LowerBodies(bodies, answers)) <==> b.Some? && Fill(b.value.outline, answers(symbol)).Some?;
      assert IsLowered(w, texts, symbol) <==> symbol in MirOf(LowerBodies(bodies, answers));
    }
  }

  // The program gives the function the MIR that another one gave it.
  ghost predicate StillRight(w: World, t0: seq<string>, t1: seq<string>, symbol: nat) {
    || (BothAccepted(w, t0, t1) && LookupsStay(w, t0, t1, symbol))
    || (!IsLowered(w, t0, symbol) && !IsLowered(w, t1, symbol))
  }

  lemma SameMirExactly(w: World, t0: seq<string>, t1: seq<string>, symbol: nat)
    requires LowersWell(w) && Over(w, t0) && Over(w, t1) && SameSignatures(w, t0, t1)
    requires BothAccepted(w, t0, t1) ==> SameDeclaration(w, t0, t1, symbol)
    ensures MirTextOf(ProgramOf(w, t0), symbol) == MirTextOf(ProgramOf(w, t1), symbol)
      <==> StillRight(w, t0, t1, symbol)
  {
    hide SameSignatures, CompileWholeProgram, Fill, ReadsBack, SameAnswers, WellBodied;
    LoweredNow(w, t0, symbol);
    LoweredNow(w, t1, symbol);
    if BothAccepted(w, t0, t1) && BodyNow(w, t0, symbol).Some? {
      assert SameOutline(w, t0, t1, symbol);
      var outline, a0, a1 := BodyNow(w, t0, symbol).value.outline, w.stages.answers(t0)(symbol),
        w.stages.answers(t1)(symbol);
      if Fill(outline, a0).Some? { FilledAlikeExactly(outline, a0, a1); }
      if SameAnswers(outline, a0, a1) { SameAnswersFillAlike(outline, a0, a1); }
    }
  }

  // After edits that keep every signature and do not reach the function's declaration,
  // its MIR query is right exactly when the program was and is accepted and what
  // lowering the function looks up elsewhere is what it was, or the function is lowered
  // in neither.
  lemma MirIsRightExactly(w: World, run: seq<Moment>, i: nat, j: nat, symbol: nat)
    requires SessionLife(w, run) && i <= j < |run| && LowersWell(w)
    requires InterfacesRight(w, run[i]) && SignaturesStay(w, run, i, j) && BodyUnreached(w, run, i, j, symbol)
    requires BothAccepted(w, run[i].texts, run[j].texts) ==> SameDeclaration(w, run[i].texts, run[j].texts, symbol)
    requires UpToDate(run[i], MirOfKey(symbol))
    requires run[i].store.memos[MirOfKey(symbol)].value == MirTextOf(ProgramOf(w, run[i].texts), symbol)
    ensures MirOfKey(symbol) in run[j].store.memos
    ensures run[j].store.memos[MirOfKey(symbol)].value == MirTextOf(ProgramOf(w, run[j].texts), symbol) <==> (
      || (BothAccepted(w, run[i].texts, run[j].texts) && LookupsStay(w, run[i].texts, run[j].texts, symbol))
      || (!IsLowered(w, run[i].texts, symbol) && !IsLowered(w, run[j].texts, symbol)))
  {
    hide SessionLife, NotRun, InterfacesRight, BodyUnreached, SameDeclaration, LookupsStay, CompileWholeProgram,
         SameSignatures, LowersWell;
    OnlyEditedBodiesAreLowered(w, run, i, j, symbol);
    TextsAreOver(w, run, i);
    TextsAreOver(w, run, j);
    assert SameSignatures(w, run[i].texts, run[j].texts);
    SameMirExactly(w, run[i].texts, run[j].texts, symbol);
  }

  lemma TextsAreOver(w: World, run: seq<Moment>, i: nat)
    requires SessionLife(w, run) && i < |run|
    ensures Over(w, run[i].texts)
  {
    assert Sound(w, run[i]);
  }

  // What the body query of a first run had read.
  lemma BodyReadsOwnFile(w: World, m: Moment, symbol: nat)
    requires Primed(w, m) && BodyKey(symbol) in m.store.memos
    ensures forall d :: d in m.store.memos[BodyKey(symbol)].deps ==>
      w.stages.resolve(m.texts).DefiningFile(symbol) == Some(d.arg)
  {
    var k, host := BodyKey(symbol), HostNow(w, m.texts);
    assert Produced(host, m.store, k);
    var deps := m.store.memos[k].deps;
    var read :| Transcript(host, k, read, deps, m.store.memos[k].value);
    forall d | d in deps ensures w.stages.resolve(m.texts).DefiningFile(symbol) == Some(d.arg) {
      var n :| 0 <= n < |deps| && deps[n] == d;
      assert host.step(k, read[..n]) == FnBodyStep(ProgramOf(w, m.texts), symbol, read[..n]);
    }
  }

  // ---- Sessions that ask, edit and ask again ----

  // The first `n` files are called by their numbers.
  function Numbers(n: nat): seq<string> { seq(n, i requires 0 <= i < n => Decimal(i)) }

  function Loading(texts: seq<string>): seq<Change> {
    seq(|texts|, i requires 0 <= i < |texts| => Change(Decimal(i), texts[i]))
  }

  lemma NumbersAreFound(n: nat, i: nat)
    ensures i < n ==> Decimal(i) in Numbers(n) && FileOf(Numbers(n), Decimal(i)) == i
    ensures Decimal(i) in Numbers(n) ==> i < n
  {
    var names := Numbers(n);
    forall a, b | 0 <= a < b < n ensures names[a] != names[b] {
      if names[a] == names[b] { DecimalInjective(a, b); }
    }
    if i < n {
      assert names[i] == Decimal(i);
      FileIsFound(names, i);
    }
    if Decimal(i) in names {
      var a :| 0 <= a < n && names[a] == Decimal(i);
      DecimalInjective(a, i);
    }
  }

  // The files after the first `n` are loaded over those held.
  function LoadedOver(held: seq<string>, texts: seq<string>, n: nat): Listing
    requires n <= |texts|
  {
    if n <= |held| then Listing(Numbers(|held|), texts[..n] + held[n..]) else Listing(Numbers(n), texts[..n])
  }

  lemma LoadingStep(held: seq<string>, texts: seq<string>, n: nat)
    requires n < |texts|
    ensures WithChange(LoadedOver(held, texts, n), Change(Decimal(n), texts[n])) == LoadedOver(held, texts, n + 1)
  {
    var before := LoadedOver(held, texts, n);
    NumbersAreFound(|before.names|, n);
    if n < |held| {
      assert before.texts[n := texts[n]] == texts[..n + 1] + held[n + 1..];
    } else {
      assert before.texts == texts[..n] && before.names == Numbers(n);
      assert Numbers(n) + [Decimal(n)] == Numbers(n + 1);
      assert texts[..n] + [texts[n]] == texts[..n + 1];
    }
  }

  lemma {:induction false} LoadingSets(held: seq<string>, texts: seq<string>, n: nat)
    requires n <= |texts|
    ensures WithChanges(Listing(Numbers(|held|), held), Loading(texts)[..n]) == LoadedOver(held, texts, n)
  {
    hide WithChange, Numbers;
    if n == 0 {
      assert texts[..0] + held[0..] == held;
    } else {
      LoadingSets(held, texts, n - 1);
      var changes := Loading(texts);
      assert changes[..n][..n - 1] == changes[..n - 1] && changes[..n][n - 1] == changes[n - 1];
      LoadingStep(held, texts, n - 1);
    }
  }

  lemma LoadingGives(held: seq<string>, texts: seq<string>)
    requires |held| <= |texts|
    ensures WithChanges(Listing(Numbers(|held|), held), Loading(texts)) == Listing(Numbers(|texts|), texts)
  {
    LoadingSets(held, texts, |texts|);
    assert Loading(texts)[..|texts|] == Loading(texts) && texts[..|texts|] == texts;
    assert |held| == |texts| ==> texts + held[|texts|..] == texts;
  }

  // What such a session went through: loaded, asked, edited, asked again.
  ghost predicate Visit(w: World, t0: seq<string>, t1: seq<string>, run: seq<Moment>) {
    && |run| == 4 && SessionLife(w, run)
    && run[0].texts == run[1].texts == t0 && run[2].texts == run[3].texts == t1
    && run[0].store.memos == map[] && Answered(w, t0, run[0].store, run[1].store)
    && FilesSet(run[1], run[2]) && Answered(w, t1, run[2].store, run[3].store)
  }

  // The files come to hold `texts`, and `key` is asked.
  method LoadAndAsk(session: IncrementalSession, ghost held: seq<string>, texts: seq<string>, key: Key)
      returns (answer: Value, ghost loaded: Moment)
    requires session.Valid() && session.engine.Quiet() && ListingOf(session) == Listing(Numbers(|held|), held)
    requires |held| <= |texts| && texts != [] && Over(session.world, texts) && Rank(key) > 0
    modifies session, session.engine
    ensures session.Valid() && session.engine.Quiet() && ListingOf(session) == Listing(Numbers(|texts|), texts)
    ensures loaded.texts == texts && loaded.store.memos == old(session.engine.memos)
    ensures FilesSet(old(Now(session)), loaded) && Sound(session.world, loaded)
    ensures Answered(session.world, texts, loaded.store, session.engine.Now()) && Sound(session.world, Now(session))
    ensures Holds(Now(session), key, answer)
  {
    hide Grounded, Inv, AllWired, Answered, WithChange, Holds, FilesSet, Over, Numbers;
    LoadingGives(held, texts);
    LoadingIsOver(session.world, texts);
    SetAll(session, Loading(texts));
    loaded := Now(session);
    var answers := AskAll(session, [key]);
    assert Holds(Now(session), [key][0], answers[0].value);
    answer := answers[0].value;
  }

  lemma LoadingIsOver(w: World, texts: seq<string>)
    requires Over(w, texts)
    ensures |Numbers(|texts|)| <= MAX_FILES
    ensures forall i :: 0 <= i < |Loading(texts)| ==> Loading(texts)[i].text in w.universe
  {}

  // The files hold `t0`; `key` is asked; they are edited to hold `t1`; and it is
  // asked again.
  method AskEditAsk(stages: Stages, ghost w: World, t0: seq<string>, t1: seq<string>, key: Key)
      returns (before: Value, after: Value, ghost run: seq<Moment>)
    requires w.stages == stages && NoCollision(w) && WellResolved(w) && Over(w, t0) && Over(w, t1)
    requires 0 < |t0| <= |t1| && Rank(key) > 0
    ensures Visit(w, t0, t1, run) && Holds(run[1], key, before) && Holds(run[3], key, after)
  {
    hide Sound, Answered, SessionLife, NoCollision, WellResolved, Holds, FilesSet, Over, Numbers,
         IncrementalSession.Valid, Inv, Grounded, AllWired;
    var session := new IncrementalSession(stages, w);
    NoFiles();
    ghost var m0, m2;
    before, m0 := LoadAndAsk(session, [], t0, key);
    ghost var m1 := Now(session);
    after, m2 := LoadAndAsk(session, t0, t1, key);
    run := [m0, m1, m2, Now(session)];
    VisitHolds(w, run);
  }

  lemma NoFiles()
    ensures Numbers(0) == []
  {}

  lemma VisitHolds(w: World, run: seq<Moment>)
    requires |run| == 4 && forall n :: 0 <= n < 4 ==> Sound(w, run[n])
    requires run[1].texts == run[0].texts && Answered(w, run[0].texts, run[0].store, run[1].store)
    requires FilesSet(run[1], run[2])
    requires run[3].texts == run[2].texts && Answered(w, run[2].texts, run[2].store, run[3].store)
    ensures SessionLife(w, run)
  {
    hide Sound, FilesSet, Answered;
    assert StepAt(w, run, 0) && StepAt(w, run, 1) && StepAt(w, run, 2);
  }

  lemma FirstIsPrimed(w: World, t0: seq<string>, t1: seq<string>, run: seq<Moment>)
    requires Visit(w, t0, t1, run)
    ensures Primed(w, run[1]) && InterfacesRight(w, run[1])
  {
    hide SessionLife;
    FreshSessionIsPrimed(w, run[0], run[1]);
  }

  lemma FirstValue(w: World, t0: seq<string>, t1: seq<string>, run: seq<Moment>, k: Key)
    requires Visit(w, t0, t1, run) && k in run[1].store.memos
    ensures run[1].store.memos[k].value == SliceNow(w, t0, k)
  {
    hide SessionLife, SliceNow;
    FreshSessionIsPrimed(w, run[0], run[1]);
  }

  // ---- Where interfaces are not local, some session is wrong ----

  lemma StaleInterface(w: World, t0: seq<string>, t1: seq<string>, run: seq<Moment>, file: nat)
    requires Visit(w, t0, t1, run) && UpToDate(run[1], InterfaceKey(file))
    requires file < |t0| && file < |t1| && !SameInterface(w, t0, t1, file)
    ensures InterfaceKey(file) in run[3].store.memos
    ensures run[3].store.memos[InterfaceKey(file)].value != BuildInterface(ProgramOf(w, t1), file)
  {
    hide SessionLife, BuildInterface, BuildResolutionDigest, InterfacesRight, Answered;
    FirstValue(w, t0, t1, run, InterfaceKey(file));
    InterfaceIsRightExactly(w, run, 1, 3, file);
  }

  // Any two programs that break locality make a session answer wrongly: it is asked
  // for the interface, edited from one program to the other, and asked again.
  method InterfaceGoesStale(stages: Stages, ghost w: World, t0: seq<string>, t1: seq<string>, file: nat)
      returns (answer: Value, ghost run: seq<Moment>)
    requires w.stages == stages && NoCollision(w) && WellResolved(w) && Over(w, t0) && Over(w, t1)
    requires file < |t0| <= |t1| && !SameInterface(w, t0, t1, file)
    ensures Visit(w, t0, t1, run) && Holds(run[3], InterfaceKey(file), answer)
    ensures answer != BuildInterface(ProgramOf(w, t1), file)
  {
    hide SessionLife, NoCollision, WellResolved, BuildInterface, Answered;
    var before;
    before, answer, run := AskEditAsk(stages, w, t0, t1, InterfaceKey(file));
    StaleInterface(w, t0, t1, run, file);
  }

  // Where interfaces are not local there are such programs, with the files of the
  // first among those of the second. With `LocalInterfacesAreRight`: sessions are
  // never wrong about interfaces exactly when interfaces are local.
  lemma LocalityIsBroken(w: World) returns (t0: seq<string>, t1: seq<string>, file: nat)
    requires !InterfacesLocal(w)
    ensures Over(w, t0) && Over(w, t1) && file < |t0| <= |t1| && !SameInterface(w, t0, t1, file)
  {
    var a, b, f: nat :| Over(w, a) && Over(w, b) && f < |a| && f < |b| && !SameInterface(w, a, b, f);
    t0, t1, file := if |a| <= |b| then a else b, if |a| <= |b| then b else a, f;
  }

  // ---- MIR ----

  // The edit does not reach what the query of the function's body sees: its file holds
  // the same text, or its declaration hashes the same.
  ghost predicate BodyKept(w: World, t0: seq<string>, t1: seq<string>, symbol: nat) {
    || SameOwnText(w, t0, t1, symbol)
    || BodyOf(ProgramOf(w, t0), symbol) == BodyOf(ProgramOf(w, t1), symbol)
  }

  // The file that declares the function is the same and holds the same text.
  predicate SameOwnText(w: World, t0: seq<string>, t1: seq<string>, symbol: nat) {
    var f0, f1 := w.stages.resolve(t0).DefiningFile(symbol), w.stages.resolve(t1).DefiningFile(symbol);
    f0 == f1 && (f0.Some? ==> LatestText(t0, f0.value) == LatestText(t1, f1.value))
  }

  lemma KeptIsUnreached(w: World, t0: seq<string>, t1: seq<string>, run: seq<Moment>, symbol: nat)
    requires Visit(w, t0, t1, run) && BodyKept(w, t0, t1, symbol)
    ensures BodyUnreached(w, run, 1, 3, symbol)
  {
    hide SessionLife, Answered, Primed, BodyOf;
    FirstIsPrimed(w, t0, t1, run);
    if BodyKey(symbol) in run[1].store.memos {
      BodyReadsOwnFile(w, run[1], symbol);
      FirstValue(w, t0, t1, run, BodyKey(symbol));
    }
  }

  lemma StaleMir(w: World, t0: seq<string>, t1: seq<string>, run: seq<Moment>, symbol: nat)
    requires Visit(w, t0, t1, run) && UpToDate(run[1], MirOfKey(symbol))
    requires SameSignatures(w, t0, t1) && BodyKept(w, t0, t1, symbol)
    ensures MirOfKey(symbol) in run[3].store.memos
    ensures run[3].store.memos[MirOfKey(symbol)].value == MirTextOf(ProgramOf(w, t0), symbol)
  {
    hide SessionLife, SameSignatures, InterfacesRight, Answered, Primed, CompileWholeProgram, BodyKept, BodyUnreached;
    FirstIsPrimed(w, t0, t1, run);
    FirstValue(w, t0, t1, run, MirOfKey(symbol));
    KeptIsUnreached(w, t0, t1, run, symbol);
    SignaturesFrom(w, t0);
    OnlyEditedBodiesAreLowered(w, run, 1, 3, symbol);
  }

  lemma SignaturesFrom(w: World, t: seq<string>)
    ensures SameSignatures(w, t, t)
  {}

  // Whatever else than signatures and the function's declaration decides its MIR, an
  // edit of that leaves the query answering the MIR of the program before: wrongly
  // exactly when the edit changes who accepts the program or what it answers.
  method MirGoesStale(stages: Stages, ghost w: World, t0: seq<string>, t1: seq<string>, symbol: nat)
      returns (answer: Value, ghost run: seq<Moment>)
    requires w.stages == stages && NoCollision(w) && WellResolved(w) && Over(w, t0) && Over(w, t1)
    requires 0 < |t0| <= |t1| && SameSignatures(w, t0, t1) && BodyKept(w, t0, t1, symbol)
    ensures Visit(w, t0, t1, run) && Holds(run[3], MirOfKey(symbol), answer)
    ensures answer == MirTextOf(ProgramOf(w, t0), symbol)
    ensures LowersWell(w) && (BothAccepted(w, t0, t1) ==> SameDeclaration(w, t0, t1, symbol)) ==>
      (answer == MirTextOf(ProgramOf(w, t1), symbol) <==> StillRight(w, t0, t1, symbol))
  {
    hide SessionLife, NoCollision, WellResolved, SameSignatures, BodyKept, Answered, LowersWell, SameDeclaration,
         StillRight, CompileWholeProgram;
    var before;
    before, answer, run := AskEditAsk(stages, w, t0, t1, MirOfKey(symbol));
    StaleMir(w, t0, t1, run, symbol);
    if LowersWell(w) && (BothAccepted(w, t0, t1) ==> SameDeclaration(w, t0, t1, symbol)) {
      SameMirExactly(w, t0, t1, symbol);
    }
  }

  // ---- One program for each ----

  const TWO_TEXTS: iset<string> := iset{"", "x"}

  // Two files; the second declares one function.
  function OneOfTwo(texts: seq<string>): Resolution {
    Resolution(if |texts| < 2 then [] else [Symbol("g", Function, true, Some(1))], map[], map[], map[], {})
  }

  // Its signature names what the first file says, and the first file saying "x" gets
  // the program rejected.
  function SmallStages(typed: bool): Stages {
    Stages(text => [], text => |text| + 1, OneOfTwo,
           texts => if typed && |texts| >= 2 then map[0 := texts[0]] else map[],
           texts => |texts| < 2 || texts[0] != "x",
           texts => [Body(0, [Words("mir")], Some("g"))], texts => symbol => map[])
  }

  ghost function SmallWorld(typed: bool): World { World(SmallStages(typed), TWO_TEXTS, 0) }

  lemma SmallWorldIsSound(typed: bool)
    ensures NoCollision(SmallWorld(typed)) && WellResolved(SmallWorld(typed))
    ensures Over(SmallWorld(typed), ["", ""]) && Over(SmallWorld(typed), ["x", ""])
  {}

  lemma SignatureFollowsOtherFile()
    ensures !SameInterface(SmallWorld(true), ["", ""], ["x", ""], 1)
  {
    var p0, p1 := ProgramOf(SmallWorld(true), ["", ""]), ProgramOf(SmallWorld(true), ["x", ""]);
    assert InterfaceItems(p0, 1, 0) == InterfaceItems(p1, 1, 0) == [];
    assert InterfaceItems(p0, 1, 1) == [ItemOf(p0, 0)] && InterfaceItems(p1, 1, 1) == [ItemOf(p1, 0)];
    assert ItemOf(p0, 0).signature == Some("") && ItemOf(p1, 0).signature == Some("x");
  }

  // A program of one function.
  lemma OneBodyProgram(w: World, texts: seq<string>, b: Body)
    requires w.stages.bodies(texts) == [b] && w.stages.accepts(texts)
    ensures var mir, p := Fill(b.outline, w.stages.answers(texts)(b.symbol)), ProgramOf(w, texts);
      mir.Some? ==>
        && MirTextOf(p, b.symbol) == MirText(mir.value)
        && BodyOf(p, b.symbol) == BodyHash(if b.span.Some? then w.stages.fingerprint(b.span.value) else 0)
  {
    AcceptedIsLowered(w.stages, texts);
    var answers := w.stages.answers(texts);
    var mir := Fill(b.outline, answers(b.symbol));
    assert [b][..0] == [] && LowerBodies([], answers) == [];
    if mir.Some? {
      var one := Lowered(b.symbol, mir.value, b.span);
      assert LowerBodies([b], answers) == [one];
      assert [one][..0] == [] && MirOf([]) == map[] && BodiesOf(w.stages, []) == map[];
      assert MirOf([one]) == map[b.symbol := mir.value];
    }
  }

  lemma RejectionKeepsSignatures()
    ensures var w := SmallWorld(false);
      SameSignatures(w, ["", ""], ["x", ""]) && BodyKept(w, ["", ""], ["x", ""], 0)
    ensures MirTextOf(ProgramOf(SmallWorld(false), ["", ""]), 0) == MirText("mir")
    ensures MirTextOf(ProgramOf(SmallWorld(false), ["x", ""]), 0) == MirText("")
  {
    var p0, p1 := ProgramOf(SmallWorld(false), ["", ""]), ProgramOf(SmallWorld(false), ["x", ""]);
    OneBodyProgram(SmallWorld(false), ["", ""], Body(0, [Words("mir")], Some("g")));
    assert p1.mir == map[];
    forall f ensures BuildInterface(p0, f) == BuildInterface(p1, f) {
      assert InterfaceItems(p0, f, 0) == InterfaceItems(p1, f, 0);
    }
  }

  // A session that answers with an interface of an earlier program.
  method AnInterfaceGoesStale() returns (answer: Value)
    ensures answer != BuildInterface(ProgramOf(SmallWorld(true), ["x", ""]), 1)
  {
    hide SmallStages, NoCollision, WellResolved, SameInterface, Over;
    SmallWorldIsSound(true);
    SignatureFollowsOtherFile();
    ghost var run;
    answer, run := InterfaceGoesStale(SmallStages(true), SmallWorld(true), ["", ""], ["x", ""], 1);
  }

  // A session that answers with the MIR of a function although the program it holds
  // is rejected and has none.
  method AMirGoesStale() returns (answer: Value)
    ensures answer == MirText("mir") && MirTextOf(ProgramOf(SmallWorld(false), ["x", ""]), 0) == MirText("")
  {
    hide SmallStages, NoCollision, WellResolved, SameSignatures, BodyKept, Over, CompileWholeProgram, LowersWell;
    SmallWorldIsSound(false);
    RejectionKeepsSignatures();
    ghost var run;
    answer, run := MirGoesStale(SmallStages(false), SmallWorld(false), ["", ""], ["x", ""], 0);
  }

  // ---- A const that another declaration names ----

  const TWO_VALUES: iset<string> := iset{"3", "4"}

  // The function's MIR shows the const LIMIT, which is what `file` says.
  function ConstStages(file: nat): Stages {
    Stages(text => [], text => if text == "4" then 2 else 1, OneOfTwo, texts => map[], texts => true,
           texts => [Body(0, [Words("fn g: const "), Asks("LIMIT")], Some("g"))],
           texts => symbol => if file < |texts| then map["LIMIT" := texts[file] + "_i64"] else map[])
  }

  ghost function ConstWorld(file: nat): World { World(ConstStages(file), TWO_VALUES, 0) }

  // Two files that say 3, and one of them edited.
  function Threes(): seq<string> { ["3", "3"] }

  function WithFour(file: nat): (texts: seq<string>)
    requires file < 2
    ensures |texts| == 2
  {
    Threes()[file := "4"]
  }

  lemma ConstWorldIsSound(file: nat)
    requires file < 2
    ensures NoCollision(ConstWorld(file)) && WellResolved(ConstWorld(file))
    ensures Over(ConstWorld(file), Threes()) && Over(ConstWorld(file), WithFour(file)) && |Threes()| == 2
  {}

  lemma ConstIsShown(file: nat, texts: seq<string>)
    requires file < |texts|
    ensures var p := ProgramOf(ConstWorld(file), texts);
      && MirTextOf(p, 0) == MirText("fn g: const " + texts[file] + "_i64")
      && BodyOf(p, 0) == BodyHash(1)
  {
    var w, outline := ConstWorld(file), [Words("fn g: const "), Asks("LIMIT")];
    assert outline[1..] == [Asks("LIMIT")] && outline[1..][1..] == [];
    var answers := w.stages.answers(texts)(0);
    assert Fill(outline[1..][1..], answers) == Some("");
    assert Fill(outline[1..], answers) == Some(texts[file] + "_i64" + "");
    assert Fill(outline, answers) == Some("fn g: const " + (texts[file] + "_i64" + ""));
    OneBodyProgram(w, texts, Body(0, outline, Some("g")));
  }

  lemma ConstKeepsSignatures(file: nat, t0: seq<string>, t1: seq<string>)
    requires |t0| == |t1|
    ensures SameSignatures(ConstWorld(file), t0, t1)
  {
    var p0, p1 := ProgramOf(ConstWorld(file), t0), ProgramOf(ConstWorld(file), t1);
    forall f ensures BuildInterface(p0, f) == BuildInterface(p1, f) {
      if |t0| >= 2 {
        assert InterfaceItems(p0, f, 0) == InterfaceItems(p1, f, 0);
      }
    }
  }

  // Lowering is as well behaved there as the exact condition asks for.
  lemma ConstWorldLowersWell(file: nat)
    ensures LowersWell(ConstWorld(file))
  {
    hide SameSignatures, Fill;
    var w, b := ConstWorld(file), Body(0, [Words("fn g: const "), Asks("LIMIT")], Some("g"));
    forall t0, t1, symbol | Over(w, t0) && Over(w, t1) ensures SameOutline(w, t0, t1, symbol) {
      var a0, a1 := w.stages.answers(t0)(symbol), w.stages.answers(t1)(symbol);
      forall q | q in a0 && q in a1 ensures Apart(a0[q], a1[q]) {
        assert a0[q] == t0[file] + "_i64" && a1[q] == t1[file] + "_i64";
        assert a0[q][0] == t0[file][0] && a1[q][0] == t1[file][0];
      }
      ApartReadsBack(b.outline, a0, a1);
      assert BodyFor([b], symbol).Some? ==> BodyFor([b], symbol).value == b by { assert [b][..0] == []; }
    }
  }

  // The edit keeps every signature and every word of the function; what its MIR is
  // changes all the same.
  lemma ConstEdit(file: nat)
    requires file < 2
    ensures var w, t0, t1 := ConstWorld(file), Threes(), WithFour(file);
      && SameSignatures(w, t0, t1) && BodyKept(w, t0, t1, 0)
      && BothAccepted(w, t0, t1) && SameDeclaration(w, t0, t1, 0)
      && MirTextOf(ProgramOf(w, t0), 0) == MirText("fn g: const 3_i64")
      && MirTextOf(ProgramOf(w, t1), 0) == MirText("fn g: const 4_i64")
  {
    hide SameSignatures, CompileWholeProgram, SameOwnText, MirTextOf, BodyOf;
    var t0, t1 := Threes(), WithFour(file);
    ConstIsShown(file, t0);
    ConstIsShown(file, t1);
    assert t0[file] == "3" && t1[file] == "4";
    ConstKeepsSignatures(file, t0, t1);
    assert [Body(0, [Words("fn g: const "), Asks("LIMIT")], Some("g"))][..0] == [];
  }

  // Whichever file declares the const: editing `const LIMIT = 3` to `= 4` leaves a
  // session answering with the 3.
  method AConstGoesStale(file: nat) returns (answer: Value)
    requires file < 2
    ensures answer == MirText("fn g: const 3_i64")
    ensures MirTextOf(ProgramOf(ConstWorld(file), WithFour(file)), 0) == MirText("fn g: const 4_i64")
  {
    hide ConstStages, NoCollision, WellResolved, SameSignatures, Over, CompileWholeProgram, LowersWell, BodyKept,
         Threes, WithFour, Visit, Holds, StillRight, BothAccepted, SameDeclaration, MirTextOf;
    ConstWorldIsSound(file);
    ConstEdit(file);
    ghost var run;
    answer, run := MirGoesStale(ConstStages(file), ConstWorld(file), Threes(), WithFour(file), 0);
  }
}
