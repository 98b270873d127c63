// The incremental session: files, the memoized whole-program snapshot, and the
// queries an interactive host asks, answered through the engine.

module IncrementalSessions {
  import opened QueryModel
  import opened FrontEnd
  import opened SpecClosures
  import opened SessionHost
  import opened SessionClaims
  import opened SessionTruth
  import opened EngineStore
  import opened EngineRun
  import opened QueryEngines
  import opened Digests

  // A whole-program compilation memoized for one revision.
  datatype Snapshot = Snapshot(revision: nat, program: Program)

  datatype File = File(id: nat, text: string)

  // ---- What a memo of each kind holds ----

  // The value stored under a key has the shape its accessor downcasts to.
  predicate Shaped(k: Key, v: Value) {
    && (k.kind == PARSE ==> v.ParseDigest?)
    && (k.kind == INTERFACE ==> v.InterfaceDigest?)
    && (k.kind == TYPE_OF ==> v.SignatureType?)
    && (k.kind == MIR_OF ==> v.MirText?)
    && (k.kind == SPEC_DEPS ==> v.SpecDeps?)
  }

  // What each kind of query may record as a dependency.
  predicate MayRead(k: Key, d: Key) {
    if k.kind == PARSE then d == SourceKey(k.arg)
    else if k.kind == RESOLUTION || k.kind == SPEC_GRAPH then d == FILE_SET_KEY || d.kind == PARSE
    else if k.kind == INTERFACE then d == ParseKey(k.arg) || d == RESOLUTION_KEY
    else if k.kind == TYPE_OF then d == RESOLUTION_KEY || d.kind == INTERFACE
    else if k.kind == FN_BODY then d.kind == PARSE
    else if k.kind == MIR_OF then d == TypeOfKey(k.arg) || d == BodyKey(k.arg)
    else if k.kind == SPEC_DEPS then d == SPEC_GRAPH_KEY || d.kind == TYPE_OF
    else false
  }

  ghost predicate Wired(k: Key, m: Memo<Value>) {
    Shaped(k, m.value) && forall d :: d in m.deps ==> MayRead(k, d)
  }

  ghost predicate AllWired(s: Store<Value>) {
    forall k :: k in s.memos ==> Wired(k, s.memos[k])
  }

  lemma ComputeIsWired(stages: Stages, p: Program, k: Key, read: seq<Value>)
    ensures var step := Compute(stages, p, k, read);
      && (step.Ret? ==> Shaped(k, step.value))
      && (step.Asks() ==> MayRead(k, step.key))
  {}

  lemma TranscriptIsWired(w: World, texts: seq<string>, k: Key, read: seq<Value>, m: Memo<Value>)
    requires Transcript(HostNow(w, texts), k, read, m.deps, m.value)
    ensures Wired(k, m)
  {
    var h := HostNow(w, texts);
    ComputeIsWired(w.stages, ProgramOf(w, texts), k, read);
    forall d | d in m.deps ensures MayRead(k, d) {
      var i :| 0 <= i < |m.deps| && m.deps[i] == d;
      ComputeIsWired(w.stages, ProgramOf(w, texts), k, read[..i]);
      assert h.step(k, read[..i]).Asks();
    }
  }

  lemma WiringStays(w: World, texts: seq<string>, s0: Store<Value>, s1: Store<Value>, key: Key, below: nat)
    requires AllWired(s0) && Serves(HostNow(w, texts), ClaimsNow(w, texts), s0, s1, key, below)
    ensures AllWired(s1)
  {
    hide Wired, Transcript;
    forall k | k in s1.memos ensures Wired(k, s1.memos[k]) {
      assert Stepped(MemoAt(s0, k), s1.memos[k], Ran(s0, s1, k), s1.revision);
      if Ran(s0, s1, k) {
        assert Produced(HostNow(w, texts), s1, k);
        var read :| Transcript(HostNow(w, texts), k, read, s1.memos[k].deps, s1.memos[k].value);
        TranscriptIsWired(w, texts, k, read, s1.memos[k]);
      } else {
        ConfirmedIsWired(k, s0.memos[k], s1.memos[k]);
      }
    }
  }

  lemma ConfirmedIsWired(k: Key, m0: Memo<Value>, m1: Memo<Value>)
    requires Wired(k, m0) && m1.value == m0.value && m1.deps == m0.deps
    ensures Wired(k, m1)
  {}

  // ---- Edits ----

  function WithText(files: seq<File>, id: nat, text: string): seq<File>
    requires id < |files|
  {
    files[id := File(id, text)]
  }

  function TextsIn(files: seq<File>): seq<string> {
    seq(|files|, i requires 0 <= i < |files| => files[i].text)
  }

  // The inputs halfway through adding a file: the file set knows it, its text is
  // not there yet.
  ghost function FileAnnounced(texts: seq<string>): Key -> Value {
    k => if k == FILE_SET_KEY then FileSet(|texts| + 1) else InputAt(texts, k)
  }

  // ---- Affected specs ----

  // The symbols declared in one of `files`.
  predicate DeclaredIn(r: Resolution, files: seq<nat>, id: nat) {
    id < |r.symbols| && r.symbols[id].declaration.Some? && r.symbols[id].declaration.value in files
  }

  predicate Affected(r: Resolution, files: seq<nat>, spec: nat) {
    DeclaredIn(r, files, spec) || exists d :: d in SpecClosure(r, spec) && DeclaredIn(r, files, d)
  }

  predicate IsSpec(r: Resolution, id: nat) {
    id < |r.symbols| && r.symbols[id].kind.Spec?
  }

  // The affected specs, each once, in declaration order.
  ghost predicate Selection(r: Resolution, files: seq<nat>, list: seq<nat>) {
    && (forall s: nat :: s in list <==> IsSpec(r, s) && Affected(r, files, s))
    && Increasing(list)
  }

  function SpecSymbols(r: Resolution, upTo: nat): seq<nat>
    requires upTo <= |r.symbols|
  {
    if upTo == 0 then []
    else SpecSymbols(r, upTo - 1) + (if r.symbols[upTo - 1].kind.Spec? then [upTo - 1] else [])
  }

  function AffectedAmong(r: Resolution, files: seq<nat>, specs: seq<nat>): seq<nat> {
    if specs == [] then []
    else
      var last := specs[|specs| - 1];
      AffectedAmong(r, files, specs[..|specs| - 1]) + (if Affected(r, files, last) then [last] else [])
  }

  predicate Increasing(ids: seq<nat>) { forall i, j :: 0 <= i < j < |ids| ==> ids[i] < ids[j] }

  lemma {:induction false} SpecSymbolsAre(r: Resolution, upTo: nat)
    requires upTo <= |r.symbols|
    ensures Increasing(SpecSymbols(r, upTo)) && forall s: nat :: s in SpecSymbols(r, upTo) <==> s < upTo && IsSpec(r, s)
  {
    if upTo > 0 {
      SpecSymbolsAre(r, upTo - 1);
      var init := SpecSymbols(r, upTo - 1);
      assert forall i :: 0 <= i < |init| ==> init[i] in init;
    }
  }

  lemma {:induction false} AffectedAmongAre(r: Resolution, files: seq<nat>, specs: seq<nat>)
    requires Increasing(specs)
    ensures Increasing(AffectedAmong(r, files, specs))
    ensures forall s: nat :: s in AffectedAmong(r, files, specs) <==> s in specs && Affected(r, files, s)
  {
    hide Affected;
    if specs != [] {
      var init, last := specs[..|specs| - 1], specs[|specs| - 1];
      assert specs == init + [last];
      AffectedAmongAre(r, files, init);
      var list := AffectedAmong(r, files, init);
      assert forall i :: 0 <= i < |list| ==> list[i] in list;
      assert forall i :: 0 <= i < |init| ==> init[i] < last;
    }
  }

  lemma SelectionHolds(r: Resolution, files: seq<nat>)
    ensures Selection(r, files, AffectedAmong(r, files, SpecSymbols(r, |r.symbols|)))
  {
    hide Affected;
    SpecSymbolsAre(r, |r.symbols|);
    AffectedAmongAre(r, files, SpecSymbols(r, |r.symbols|));
  }

  class IncrementalSession {
    const stages: Stages
    const engine: QueryEngine<Value>
    // Interned file names; a file's id is its position.
    var names: seq<string>
    // File ids and current texts, in insertion order.
    var files: seq<File>
    var snapshot: Option<Snapshot>
    ghost const world: World
    // The revisions the whole program was compiled at, in order.
    ghost var compiled: seq<nat>

    constructor (stages: Stages, ghost world: World)
      requires world.stages == stages && NoCollision(world) && WellResolved(world)
      ensures Valid() && fresh(engine)
      ensures this.world == world && names == [] && files == [] && engine.Quiet()
      ensures engine.memos == map[]
    {
      this.stages := stages;
      this.world := world;
      engine := new QueryEngine<Value>();
      names, files, snapshot := [], [], None;
      compiled := [];
      new;
      assert Inv(ClaimsNow(world, Texts()), engine.Now());
    }

    function Texts(): seq<string>
      reads this
    {
      TextsIn(files)
    }

    ghost predicate FilesValid()
      reads this
    {
      && |names| == |files| && (forall i :: 0 <= i < |files| ==> files[i].id == i)
      && (forall i, j :: 0 <= i < j < |names| ==> names[i] != names[j])
    }

    // The memoized snapshot is the compilation of the current files, and no
    // revision was compiled twice.
    ghost predicate SnapshotValid()
      reads this, engine
    {
      && (snapshot.Some? ==> snapshot.value == Snapshot(engine.revision, CompileWholeProgram(stages, Texts())))
      && (forall i :: 0 <= i < |compiled| ==> compiled[i] <= engine.revision)
      && (forall i, j :: 0 <= i < j < |compiled| ==> compiled[i] < compiled[j])
      && (engine.revision in compiled ==> snapshot.Some?)
    }

    ghost predicate Valid()
      reads this, engine
    {
      && world.stages == stages && Grounded(world, Texts())
      && FilesValid() && SnapshotValid()
      && engine.Idle() && AllWired(engine.Now())
      && Inv(ClaimsNow(world, Texts()), engine.Now())
    }

    // ---- Editing ----

    method FindName(name: string) returns (found: Option<nat>)
      ensures found.Some? ==> found.value < |names| && names[found.value] == name
      ensures found.None? ==> name !in names
    {
      for i := 0 to |names|
        invariant forall j :: 0 <= j < i ==> names[j] != name
      {
        if names[i] == name { return Some(i); }
      }
      found := None;
    }

    // Set or replace a file's text, creating the file on first use.
    method SetFile(name: string, text: string) returns (file: nat)
      requires Valid() && text in world.universe
      requires name in names || |names| < MAX_FILES
      modifies this, engine
      ensures Valid() && file < |files| && names[file] == name
      ensures name in old(names) ==>
        names == old(names) && file < |old(files)| && files == WithText(old(files), file, text)
      ensures name !in old(names) ==> names == old(names) + [name] && files == old(files) + [File(|old(files)|, text)]
      ensures snapshot == None && compiled == old(compiled)
      ensures engine.memos == old(engine.memos) && engine.log == old(engine.log) && engine.read == old(engine.read)
      ensures engine.revision == old(engine.revision) + (if name in old(names) then 1 else 2)
      ensures engine.inputChanged ==
        (if name in old(names) then old(engine.inputChanged)
         else old(engine.inputChanged)[FILE_SET_KEY := engine.revision - 1])[SourceKey(file) := engine.revision]
      ensures engine.cancelled == old(engine.cancelled) && engine.arrival == old(engine.arrival)
    {
      hide Grounded, Inv, AllWired;
      var found := FindName(name);
      if found.Some? {
        file := found.value;
        ReplaceText(file, text);
      } else {
        file := |names|;
        names := names + [name];
        AddText(text);
      }
      // A new revision invalidates the whole-program snapshot.
      snapshot := None;
      WiringIgnoresStamps(old(engine.Now()), engine.Now());
    }

    method ReplaceText(file: nat, text: string)
      requires Inv(ClaimsNow(world, Texts()), engine.Now()) && Grounded(world, Texts())
      requires file < |files| && text in world.universe
      modifies this`files, engine`revision, engine`inputChanged
      ensures files == WithText(old(files), file, text) && Grounded(world, Texts())
      ensures Inv(ClaimsNow(world, Texts()), engine.Now())
      ensures engine.revision == old(engine.revision) + 1
      ensures engine.inputChanged == old(engine.inputChanged)[SourceKey(file) := engine.revision]
    {
      hide Grounded, Inv;
      ghost var before := Texts();
      files := WithText(files, file, text);
      TextReplaced(world, old(files), file, text);
      engine.BumpInput(SourceKey(file), ClaimsNow(world, before), ClaimsNow(world, Texts()));
    }

    method AddText(text: string)
      requires Inv(ClaimsNow(world, Texts()), engine.Now()) && Grounded(world, Texts())
      requires |files| < MAX_FILES && text in world.universe
      modifies this`files, engine`revision, engine`inputChanged
      ensures files == old(files) + [File(|old(files)|, text)] && Grounded(world, Texts())
      ensures Inv(ClaimsNow(world, Texts()), engine.Now())
      ensures engine.revision == old(engine.revision) + 2
      ensures engine.inputChanged ==
        old(engine.inputChanged)[FILE_SET_KEY := engine.revision - 1][SourceKey(|old(files)|) := engine.revision]
    {
      hide Grounded, Inv;
      ghost var before := Texts();
      files := files + [File(|files|, text)];
      TextAdded(world, old(files), text);
      ghost var announced := Claims(world, FileAnnounced(before));
      engine.BumpInput(FILE_SET_KEY, ClaimsNow(world, before), announced);
      engine.BumpInput(SourceKey(|files| - 1), announced, ClaimsNow(world, Texts()));
    }

    // ---- The snapshot ----

    // Make the memoized snapshot reflect the current revision.
    method EnsureSnapshot()
      requires Valid()
      modifies this`snapshot, this`compiled
      ensures Valid()
      ensures snapshot == Some(Snapshot(engine.revision, CompileWholeProgram(stages, Texts())))
      ensures compiled == old(compiled) + (if old(snapshot).Some? then [] else [engine.revision])
    {
      hide Grounded, Inv, AllWired;
      if snapshot.Some? && snapshot.value.revision == engine.revision { return; }
      snapshot := Some(Snapshot(engine.revision, CompileWholeProgram(stages, Texts())));
      compiled := compiled + [engine.revision];
    }

    // ---- Queries ----

    // Ask the engine for `key`, driving this session as the host.
    method Ask(key: Key) returns (r: Result<Value>)
      requires Valid() && Rank(key) > 0
      modifies this`snapshot, this`compiled, engine
      ensures Valid()
      ensures snapshot == Some(Snapshot(engine.revision, CompileWholeProgram(stages, Texts())))
      ensures engine.revision == old(engine.revision)
      ensures Serves(HostNow(world, Texts()), ClaimsNow(world, Texts()), old(engine.Now()), engine.Now(), key,
        Rank(key) + 1)
      ensures r.Ok? || r.Cancelled?
      ensures r.Ok? ==> Agrees(Eval(ClaimsNow(world, Texts()), key), r.value) && Shaped(key, r.value)
      ensures r.Ok? ==> key in engine.memos && engine.memos[key].value == r.value
      ensures r.Ok? ==> engine.memos[key].verifiedAt == engine.revision
      ensures r.Cancelled? <==> engine.cancelled
      ensures old(engine.arrival) == None ==> engine.arrival == None && engine.cancelled == old(engine.cancelled)
    {
      hide Grounded, Inv, Serves;
      EnsureSnapshot();
      ghost var s0, texts := engine.Now(), Texts();
      ClaimsDescribeSession(world, texts);
      HostIsWellRanked(stages, ProgramOf(world, texts));
      r := engine.Query(key, HostOf(stages, snapshot.value.program), ClaimsNow(world, texts));
      SameStamps(HostNow(world, texts), ClaimsNow(world, texts), s0, engine.Now(), key, Rank(key) + 1);
      WiringStays(world, texts, s0, engine.Now(), key, Rank(key) + 1);
      assert r.Ok? ==> Wired(key, engine.memos[key]);
    }

    // The diagnostics of `file`'s current parse.
    method Parse(file: nat) returns (r: Result<seq<string>>)
      requires Valid()
      modifies this`snapshot, this`compiled, engine
      ensures Valid()
      ensures r.Ok? || r.Cancelled?
      ensures r.Cancelled? <==> engine.cancelled
      ensures r.Ok? ==> r.value == if file < |Texts()| then stages.parseCodes(Texts()[file]) else []
      ensures old(engine.Quiet()) ==> r.Ok?
    {
      hide Grounded, Inv, AllWired, Serves, InterfacesLocal, DeclaredItem;
      var v := Ask(ParseKey(file));
      EvalParse(world, Texts(), file);
      r := match v case Ok(d) => Ok(d.codes) case Cancelled => Cancelled case NoText(f) => NoText(f);
    }

    // Resolve the whole program; its digest is left in the engine.
    method Resolution() returns (r: Result<()>)
      requires Valid()
      modifies this`snapshot, this`compiled, engine
      ensures Valid()
      ensures r.Ok? || r.Cancelled?
      ensures r.Cancelled? <==> engine.cancelled
      ensures r.Ok? ==>
        RESOLUTION_KEY in engine.memos && engine.memos[RESOLUTION_KEY].value == ResolutionOf(world, Texts())
      ensures r.Ok? ==> TellsSymbols(engine.memos[RESOLUTION_KEY].value, stages.resolve(Texts()))
      ensures old(engine.Quiet()) ==> r.Ok?
    {
      hide Grounded, Inv, AllWired, Serves, InterfacesLocal, DeclaredItem;
      var v := Ask(RESOLUTION_KEY);
      EvalWholeProgram(world, Texts(), false);
      DigestTellsSymbols(stages.resolve(Texts()));
      r := match v case Ok(_) => Ok(()) case Cancelled => Cancelled case NoText(f) => NoText(f);
    }

    // The signature type of a declared item, as the current program checks it.
    method TypeOfFunction(symbol: nat) returns (r: Result<Option<string>>)
      requires Valid()
      modifies this`snapshot, this`compiled, engine
      ensures Valid()
      ensures r.Ok? || r.Cancelled?
      ensures r.Cancelled? <==> engine.cancelled
      ensures r.Ok? && InterfacesLocal(world) && DeclaredItem(world, Texts(), symbol) ==>
        var types := stages.check(Texts());
        r.value == if symbol in types then Some(types[symbol]) else None
      ensures old(engine.Quiet()) ==> r.Ok?
    {
      hide Grounded, Inv, AllWired, Serves, InterfacesLocal, DeclaredItem;
      var v := Ask(TypeOfKey(symbol));
      if InterfacesLocal(world) && DeclaredItem(world, Texts(), symbol) { EvalTypeOf(world, Texts(), symbol); }
      r := match v case Ok(t) => Ok(t.signature) case Cancelled => Cancelled case NoText(f) => NoText(f);
    }

    // The rendered MIR of a function. Its recorded dependencies do not determine
    // it, so only a fresh execution is known to be current.
    method MirOf(symbol: nat) returns (r: Result<string>)
      requires Valid()
      modifies this`snapshot, this`compiled, engine
      ensures Valid()
      ensures r.Ok? || r.Cancelled?
      ensures r.Cancelled? <==> engine.cancelled
      ensures r.Ok? && |engine.log| > |old(engine.log)| && engine.log[|engine.log| - 1] == MirOfKey(symbol) ==>
        MirText(r.value) == MirTextOf(ProgramOf(world, Texts()), symbol)
      ensures old(engine.Quiet()) ==> r.Ok?
    {
      hide Grounded, Inv, AllWired, Serves, InterfacesLocal, DeclaredItem;
      ghost var s0 := engine.Now();
      var v := Ask(MirOfKey(symbol));
      LastRunIsCurrent(world, Texts(), s0, engine.Now(), symbol);
      r := match v case Ok(t) => Ok(t.mir) case Cancelled => Cancelled case NoText(f) => NoText(f);
    }

    // The symbols a spec's dependency closure lists.
    method SpecDependencies(symbol: nat) returns (r: Result<seq<nat>>)
      requires Valid()
      modifies this`snapshot, this`compiled, engine
      ensures Valid()
      ensures snapshot == Some(Snapshot(engine.revision, CompileWholeProgram(stages, Texts())))
      ensures r.Ok? || r.Cancelled?
      ensures r.Cancelled? <==> engine.cancelled
      ensures r.Ok? ==> r.value == SpecClosure(stages.resolve(Texts()), symbol)
      ensures old(engine.Quiet()) ==> r.Ok? && engine.Quiet()
    {
      hide Grounded, Inv, AllWired, Serves, InterfacesLocal, DeclaredItem;
      var v := Ask(SpecDepsKey(symbol));
      EvalSpecDeps(world, Texts(), symbol);
      r := match v case Ok(d) => Ok(d.deps) case Cancelled => Cancelled case NoText(f) => NoText(f);
    }

    // Every spec whose closure meets a symbol declared in a changed file, or that
    // is declared in one itself, in declaration order.
    method AffectedSpecs(changed: seq<nat>) returns (r: Result<seq<nat>>)
      requires Valid()
      modifies this`snapshot, this`compiled, engine
      ensures Valid()
      ensures r.Ok? || (r.Cancelled? && engine.cancelled)
      ensures r.Ok? ==> Selection(stages.resolve(Texts()), changed, r.value)
      ensures old(engine.Quiet()) ==> r.Ok?
    {
      hide Valid, Affected, DeclaredIn, Selection;
      EnsureSnapshot();
      ghost var texts := Texts();
      var resolution := snapshot.value.program.resolution;
      var changedSymbols := ChangedSymbols(resolution, changed);
      var specs := SpecSymbols(resolution, |resolution.symbols|);
      var affected := [];
      for i := 0 to |specs|
        invariant Valid() && Texts() == texts
        invariant affected == AffectedAmong(resolution, changed, specs[..i])
        invariant old(engine.Quiet()) ==> engine.Quiet()
      {
        var touches := Touches(specs[i], changed, changedSymbols);
        if !touches.Ok? { return Cancelled; }
        assert specs[..i + 1][..i] == specs[..i];
        if touches.value { affected := affected + [specs[i]]; }
      }
      assert specs[..|specs|] == specs;
      SelectionHolds(resolution, changed);
      r := Ok(affected);
    }

    // Whether `spec` is one of the changed symbols or depends on one.
    method Touches(spec: nat, ghost changed: seq<nat>, symbols: set<nat>) returns (r: Result<bool>)
      requires Valid()
      requires forall id :: id in symbols <==> DeclaredIn(stages.resolve(Texts()), changed, id)
      modifies this`snapshot, this`compiled, engine
      ensures Valid()
      ensures r.Ok? || (r.Cancelled? && engine.cancelled)
      ensures r.Ok? ==> (r.value <==> Affected(stages.resolve(Texts()), changed, spec))
      ensures old(engine.Quiet()) ==> r.Ok? && engine.Quiet()
    {
      hide Valid, DeclaredIn;
      var deps := SpecDependencies(spec);
      if !deps.Ok? { return Cancelled; }
      r := Ok(spec in symbols || exists d :: d in deps.value && d in symbols);
    }
  }

  // The symbols declared in the changed files.
  method ChangedSymbols(r: Resolution, files: seq<nat>) returns (symbols: set<nat>)
    ensures forall id :: id in symbols <==> DeclaredIn(r, files, id)
  {
    symbols := {};
    for i := 0 to |files|
      invariant forall id :: id in symbols <==> DeclaredIn(r, files[..i], id)
    {
      var declared := set id | 0 <= id < |r.symbols| && r.symbols[id].declaration == Some(files[i]);
      assert files[..i + 1] == files[..i] + [files[i]];
      symbols := symbols + declared;
    }
    assert files[..|files|] == files;
  }

  lemma LastRunIsCurrent(w: World, texts: seq<string>, s0: Store<Value>, s1: Store<Value>, symbol: nat)
    requires Serves(HostNow(w, texts), ClaimsNow(w, texts), s0, s1, MirOfKey(symbol), Rank(MirOfKey(symbol)) + 1)
    ensures |s1.log| > |s0.log| && s1.log[|s1.log| - 1] == MirOfKey(symbol) ==>
      MirOfKey(symbol) in s1.memos && s1.memos[MirOfKey(symbol)].value == MirTextOf(ProgramOf(w, texts), symbol)
  {
    var k := MirOfKey(symbol);
    if |s1.log| > |s0.log| && s1.log[|s1.log| - 1] == k {
      assert Ran(s0, s1, k);
      assert Produced(HostNow(w, texts), s1, k);
      var read :| Transcript(HostNow(w, texts), k, read, s1.memos[k].deps, s1.memos[k].value);
    }
  }

  lemma SameStamps(host: Host<Value>, claims: Host<Value>, s0: Store<Value>, s1: Store<Value>, key: Key, below: nat)
    requires WellRanked(claims) && Serves(host, claims, s0, s1, key, below)
    ensures s1.revision == s0.revision && s1.inputChanged == s0.inputChanged
  {}

  lemma WiringIgnoresStamps(s0: Store<Value>, s1: Store<Value>)
    requires AllWired(s0) && s1.memos == s0.memos
    ensures AllWired(s1)
  {}

  // Replacing a text changes one input.
  lemma TextReplaced(w: World, files: seq<File>, id: nat, text: string)
    requires id < |files| && Grounded(w, TextsIn(files)) && text in w.universe
    ensures Grounded(w, TextsIn(WithText(files, id, text)))
    ensures var c0 := ClaimsNow(w, TextsIn(files)); var c1 := ClaimsNow(w, TextsIn(WithText(files, id, text)));
      c1 == c0.(input := c1.input) && forall k :: k != SourceKey(id) ==> c1.input(k) == c0.input(k)
  {
    assert TextsIn(WithText(files, id, text)) == TextsIn(files)[id := text];
  }

  // Adding a file changes two, one at a time.
  lemma TextAdded(w: World, files: seq<File>, text: string)
    requires Grounded(w, TextsIn(files)) && text in w.universe && |files| < MAX_FILES
    ensures Grounded(w, TextsIn(files + [File(|files|, text)]))
    ensures var c0 := ClaimsNow(w, TextsIn(files));
      var mid := Claims(w, FileAnnounced(TextsIn(files)));
      var c1 := ClaimsNow(w, TextsIn(files + [File(|files|, text)]));
      && mid == c0.(input := mid.input) && c1 == mid.(input := c1.input)
      && (forall k :: k != FILE_SET_KEY ==> mid.input(k) == c0.input(k))
      && (forall k :: k != SourceKey(|files|) ==> c1.input(k) == mid.input(k))
  {
    var t0, t1 := TextsIn(files), TextsIn(files + [File(|files|, text)]);
    assert t1 == t0 + [text];
  }
}
