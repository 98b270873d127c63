// The claims hold of the session: evaluated from scratch they give exactly the
// slices of the current program, and every query program steps as claimed.

module SessionTruth {
  import opened QueryModel
  import opened FrontEnd
  import opened SpecClosures
  import opened SessionHost
  import opened SessionClaims

  // The standing hypotheses, for the texts the files hold now.
  ghost predicate Grounded(w: World, texts: seq<string>) {
    NoCollision(w) && WellResolved(w) && Over(w, texts)
  }

  // The hypotheses can hold together, of a program with something in it: one
  // function in the first file, whatever the files say.
  function OneFunction(texts: seq<string>): Resolution {
    Resolution(if texts == [] then [] else [Symbol("f", Function, true, Some(0))], map[], map[], map[], {})
  }

  lemma HypothesesCanHold() returns (w: World, texts: seq<string>)
    ensures Grounded(w, texts) && InterfacesLocal(w)
    ensures texts != [] && DeclaredItem(w, texts, 0)
  {
    w := World(Stages(text => [], text => |text| + 1, OneFunction, texts => map[], texts => true, texts => [],
                      texts => symbol => map[]),
      iset{"", "x"}, 0);
    texts := ["x"];
    forall t1, t2, file: nat | file < |t1| && file < |t2|
      ensures BuildInterface(ProgramOf(w, t1), file) == BuildInterface(ProgramOf(w, t2), file)
    {
      assert InterfaceItems(ProgramOf(w, t1), file, 0) == InterfaceItems(ProgramOf(w, t2), file, 0) == [];
    }
  }

  ghost function ClaimsNow(w: World, texts: seq<string>): (c: Host<Value>)
    ensures WellRanked(c) && StaysSettled(c)
  {
    ClaimsAreWellFormed(w, Inputs(texts));
    Claims(w, Inputs(texts))
  }

  ghost function HostNow(w: World, texts: seq<string>): Host<Value> {
    HostOf(w.stages, ProgramOf(w, texts))
  }

  // ---- From-scratch values of the claims ----

  lemma EvalParse(w: World, texts: seq<string>, file: nat)
    ensures Eval(ClaimsNow(w, texts), ParseKey(file)) == Value(ParseDigestOf(w.stages, ProgramOf(w, texts), file))
  {
    var c, k := ClaimsNow(w, texts), ParseKey(file);
    var v := c.input(SourceKey(file));
    assert c.step(k, []) == Input(SourceKey(file));
    assert [] + [v] == [v];
    assert c.step(k, [v]) == Ret(DigestText(w.stages, v.text));
    assert Run(c, k, [v]) == Value(DigestText(w.stages, v.text));
  }

  // What a whole-program query has read after `n` parses.
  function ParsesRead(w: World, texts: seq<string>, n: nat): seq<Value>
    requires n <= |texts|
  {
    [FileSet(|texts|)] + seq(n, i requires 0 <= i < n => DigestText(w.stages, Some(texts[i])))
  }

  function WholeProgramKey(graph: bool): Key { if graph then SPEC_GRAPH_KEY else RESOLUTION_KEY }

  function WholeProgramValue(w: World, texts: seq<string>, graph: bool): Value {
    if graph then BuildSpecGraphDigest(w.stages.resolve(texts)) else ResolutionOf(w, texts)
  }

  lemma WholeProgramStepsAsClaimed(w: World, texts: seq<string>, graph: bool, n: nat)
    requires Grounded(w, texts) && n <= |texts|
    ensures WholeProgramClaim(w, graph, ParsesRead(w, texts, n)) ==
      if n < |texts| then Query(ParseKey(n)) else Ret(WholeProgramValue(w, texts, graph))
  {
    var read := ParsesRead(w, texts, n);
    if n == |texts| {
      assert read[1..|texts| + 1] == read[1..];
      TextsComeBack(w, texts, read[1..]);
    }
  }

  lemma {:induction false} RunWholeProgram(w: World, texts: seq<string>, graph: bool, n: nat)
    requires Grounded(w, texts) && n <= |texts|
    ensures Run(ClaimsNow(w, texts), WholeProgramKey(graph), ParsesRead(w, texts, n))
      == Value(WholeProgramValue(w, texts, graph))
    decreases |texts| - n
  {
    hide WholeProgramClaim, WholeProgramValue, BuildResolutionDigest;
    var c, read := ClaimsNow(w, texts), ParsesRead(w, texts, n);
    WholeProgramStepsAsClaimed(w, texts, graph, n);
    assert c.step(WholeProgramKey(graph), read) == WholeProgramClaim(w, graph, read);
    if n < |texts| {
      EvalParse(w, texts, n);
      assert read + [DigestText(w.stages, Some(texts[n]))] == ParsesRead(w, texts, n + 1);
      RunWholeProgram(w, texts, graph, n + 1);
    }
  }

  lemma EvalWholeProgram(w: World, texts: seq<string>, graph: bool)
    requires Grounded(w, texts)
    ensures Eval(ClaimsNow(w, texts), WholeProgramKey(graph)) == Value(WholeProgramValue(w, texts, graph))
  {
    var c, k := ClaimsNow(w, texts), WholeProgramKey(graph);
    assert c.step(k, []) == Input(FILE_SET_KEY);
    assert [] + [c.input(FILE_SET_KEY)] == ParsesRead(w, texts, 0);
    RunWholeProgram(w, texts, graph, 0);
  }

  lemma {:induction false} NoItemsOf(p: Program, file: nat, upTo: nat)
    requires upTo <= |p.resolution.symbols|
    requires forall id :: 0 <= id < |p.resolution.symbols| ==> p.resolution.symbols[id].declaration != Some(file)
    ensures InterfaceItems(p, file, upTo) == []
  {
    if upTo > 0 { NoItemsOf(p, file, upTo - 1); }
  }

  // Whatever program explains the two digests has the interface of this one.
  lemma ExplanationsAgree(w: World, texts: seq<string>, other: seq<string>, file: nat)
    requires Grounded(w, texts) && InterfacesLocal(w)
    requires Explains(w, other, file, ParseDigestOf(w.stages, ProgramOf(w, texts), file), ResolutionOf(w, texts))
    ensures BuildInterface(ProgramOf(w, other), file) == BuildInterface(ProgramOf(w, texts), file)
  {
    if file < |texts| {
      assert file < |other|;
      assert SameInterface(w, texts, other, file);
    } else {
      assert file >= |other|;
      assert ResolvesWell(w, texts) && ResolvesWell(w, other);
      NoItemsOf(ProgramOf(w, texts), file, |w.stages.resolve(texts).symbols|);
      NoItemsOf(ProgramOf(w, other), file, |w.stages.resolve(other).symbols|);
    }
  }

  lemma InterfaceClaimNow(w: World, texts: seq<string>, file: nat)
    requires Grounded(w, texts) && InterfacesLocal(w)
    ensures var read := [ParseDigestOf(w.stages, ProgramOf(w, texts), file), ResolutionOf(w, texts)];
      InterfaceClaim(w, file, read) == Ret(BuildInterface(ProgramOf(w, texts), file))
  {
    var read := [ParseDigestOf(w.stages, ProgramOf(w, texts), file), ResolutionOf(w, texts)];
    assert Explains(w, texts, file, read[0], read[1]);
    forall other | Explains(w, other, file, read[0], read[1])
      ensures BuildInterface(ProgramOf(w, other), file) == BuildInterface(ProgramOf(w, texts), file)
    {
      ExplanationsAgree(w, texts, other, file);
    }
  }

  lemma EvalInterface(w: World, texts: seq<string>, file: nat)
    requires Grounded(w, texts) && InterfacesLocal(w)
    ensures Eval(ClaimsNow(w, texts), InterfaceKey(file)) == Value(BuildInterface(ProgramOf(w, texts), file))
  {
    hide BuildInterface, BuildResolutionDigest, Grounded, InterfacesLocal;
    var c, k := ClaimsNow(w, texts), InterfaceKey(file);
    var parse := ParseDigestOf(w.stages, ProgramOf(w, texts), file);
    EvalParse(w, texts, file);
    EvalWholeProgram(w, texts, false);
    assert c.step(k, []) == Query(ParseKey(file));
    assert [] + [parse] == [parse];
    assert c.step(k, [parse]) == Query(RESOLUTION_KEY);
    assert [parse] + [ResolutionOf(w, texts)] == [parse, ResolutionOf(w, texts)];
    InterfaceClaimNow(w, texts, file);
    assert Run(c, k, [parse, ResolutionOf(w, texts)]) == Value(BuildInterface(ProgramOf(w, texts), file));
    assert Run(c, k, [parse]) == Run(c, k, [parse, ResolutionOf(w, texts)]);
  }

  // ---- Types of declared items ----

  ghost predicate DeclaredItem(w: World, texts: seq<string>, symbol: nat) {
    var symbols := w.stages.resolve(texts).symbols;
    w.firstDeclared <= symbol < |symbols| && IsItem(symbols[symbol].kind)
  }

  lemma {:induction false} SignatureInItems(p: Program, file: nat, upTo: nat, symbol: nat)
    requires upTo <= |p.resolution.symbols|
    ensures ItemSignature(InterfaceItems(p, file, upTo), symbol)
      == if symbol < upTo && InInterface(p.resolution, file, symbol) then Some(TypeOf(p, symbol).signature) else None
  {
    if upTo > 0 {
      SignatureInItems(p, file, upTo - 1, symbol);
      var rest := InterfaceItems(p, file, upTo - 1);
      if InInterface(p.resolution, file, upTo - 1) {
        assert (rest + [ItemOf(p, upTo - 1)])[..|rest|] == rest;
      }
    }
  }

  function InterfacesOf(p: Program, n: nat): seq<Value> {
    if n == 0 then [] else InterfacesOf(p, n - 1) + [BuildInterface(p, n - 1)]
  }

  // Only the interface of the declaring file mentions a symbol.
  lemma {:induction false} SignatureInInterfaces(p: Program, n: nat, symbol: nat)
    requires symbol < |p.resolution.symbols| && IsItem(p.resolution.symbols[symbol].kind)
    requires p.resolution.symbols[symbol].declaration.Some?
    ensures |InterfacesOf(p, n)| == n
    ensures FindSignature(InterfacesOf(p, n), symbol)
      == if p.resolution.symbols[symbol].declaration.value < n then Some(TypeOf(p, symbol).signature) else None
  {
    if n > 0 {
      SignatureInInterfaces(p, n - 1, symbol);
      SignatureInItems(p, n - 1, |p.resolution.symbols|, symbol);
      assert InterfacesOf(p, n)[..n - 1] == InterfacesOf(p, n - 1);
    }
  }

  lemma {:induction false} InterfacesLength(p: Program, n: nat)
    ensures |InterfacesOf(p, n)| == n
  {
    if n > 0 { InterfacesLength(p, n - 1); }
  }

  // What the type query has read after `n` interfaces.
  function InterfacesRead(w: World, texts: seq<string>, n: nat): seq<Value> {
    [ResolutionOf(w, texts)] + InterfacesOf(ProgramOf(w, texts), n)
  }

  lemma KnownItemNow(w: World, texts: seq<string>, symbol: nat)
    ensures KnownItem(ResolutionOf(w, texts), symbol) <==>
      symbol < |w.stages.resolve(texts).symbols| && IsItem(w.stages.resolve(texts).symbols[symbol].kind)
  {}

  lemma TypeOfClaimNow(w: World, texts: seq<string>, symbol: nat, n: nat)
    requires Grounded(w, texts) && n <= |texts|
    ensures var claim := TypeOfClaim(w, symbol, InterfacesRead(w, texts, n));
      if !InterfacesLocal(w) || !DeclaredItem(w, texts, symbol) then claim == Unclaimed
      else
        var file := w.stages.resolve(texts).symbols[symbol].declaration;
        && file.Some? && file.value < |texts|
        && claim == if file.value < n then Fixed(TypeOf(ProgramOf(w, texts), symbol)) else Query(InterfaceKey(n))
  {
    hide InterfacesLocal, BuildInterface, FindSignature;
    var p, read := ProgramOf(w, texts), InterfacesRead(w, texts, n);
    KnownItemNow(w, texts, symbol);
    if DeclaredItem(w, texts, symbol) {
      assert ResolvesWell(w, texts);
      SignatureInInterfaces(p, n, symbol);
      assert FirstInterfaces(read) == InterfacesOf(p, n);
    }
  }

  lemma TypeOfStepNow(w: World, texts: seq<string>, symbol: nat, n: nat)
    requires Grounded(w, texts) && InterfacesLocal(w) && DeclaredItem(w, texts, symbol)
    requires n <= |texts|
    ensures var step := ClaimsNow(w, texts).step(TypeOfKey(symbol), InterfacesRead(w, texts, n));
      step == Fixed(TypeOf(ProgramOf(w, texts), symbol)) || (n < |texts| && step == Query(InterfaceKey(n)))
  {
    hide InterfacesLocal, Grounded, TypeOfClaim, BuildInterface, BuildResolutionDigest;
    TypeOfClaimNow(w, texts, symbol, n);
  }

  lemma {:induction false} RunTypeOf(w: World, texts: seq<string>, symbol: nat, n: nat)
    requires Grounded(w, texts) && InterfacesLocal(w) && DeclaredItem(w, texts, symbol)
    requires n <= |texts|
    ensures Run(ClaimsNow(w, texts), TypeOfKey(symbol), InterfacesRead(w, texts, n))
      == Value(TypeOf(ProgramOf(w, texts), symbol))
    decreases |texts| - n
  {
    hide InterfacesLocal, Grounded, TypeOfClaim, DeclaredItem, BuildInterface, BuildResolutionDigest, TypeOf;
    var c, read := ClaimsNow(w, texts), InterfacesRead(w, texts, n);
    TypeOfStepNow(w, texts, symbol, n);
    if c.step(TypeOfKey(symbol), read).Query? {
      EvalInterface(w, texts, n);
      assert read + [BuildInterface(ProgramOf(w, texts), n)] == InterfacesRead(w, texts, n + 1);
      RunTypeOf(w, texts, symbol, n + 1);
    }
  }

  lemma EvalTypeOf(w: World, texts: seq<string>, symbol: nat)
    requires Grounded(w, texts) && InterfacesLocal(w) && DeclaredItem(w, texts, symbol)
    ensures Eval(ClaimsNow(w, texts), TypeOfKey(symbol)) == Value(TypeOf(ProgramOf(w, texts), symbol))
  {
    var c, k := ClaimsNow(w, texts), TypeOfKey(symbol);
    EvalWholeProgram(w, texts, false);
    assert c.step(k, []) == Query(RESOLUTION_KEY);
    assert [] + [ResolutionOf(w, texts)] == InterfacesRead(w, texts, 0);
    RunTypeOf(w, texts, symbol, 0);
  }

  // ---- Spec dependencies ----

  lemma {:induction false} EntryInGraph(r: Resolution, upTo: nat, spec: nat)
    requires upTo <= |r.symbols|
    ensures FindEntry(SpecEntries(r, upTo), spec)
      == if spec < upTo && r.symbols[spec].kind.Spec?
         then Some(SpecEntry(spec, r.TargetOf(spec).GetOr(MAX_U32), r.DependenciesOf(spec))) else None
  {
    if upTo > 0 {
      EntryInGraph(r, upTo - 1, spec);
      var rest := SpecEntries(r, upTo - 1);
      if r.symbols[upTo - 1].kind.Spec? {
        assert SpecEntries(r, upTo)[..|rest|] == rest;
      }
    }
  }

  // The graph digest determines the closure, because only specs record edges.
  lemma GraphGivesClosure(r: Resolution, spec: nat)
    requires RecordsOnlySpecs(r) && |r.symbols| <= MAX_U32
    ensures EntryClosure(FindEntry(BuildSpecGraphDigest(r).graph, spec)) == SpecClosure(r, spec)
  {
    EntryInGraph(r, |r.symbols|, spec);
    var found := Explore(r, {}, Roots(r, spec));
    var target := if r.TargetOf(spec).Some? then {r.TargetOf(spec).value} else {};
    forall id ensures id in found <==> id in Elements(r.DependenciesOf(spec)) + target {
      ClosureIsOneLevel(r, spec, id);
      assert id in Listed(found) <==> id in found;
    }
    assert found == Elements(r.DependenciesOf(spec)) + target;
  }

  lemma SpecDepsClaimNow(w: World, texts: seq<string>, spec: nat, read: seq<Value>)
    requires Grounded(w, texts) && read != [] && read[0] == WholeProgramValue(w, texts, true)
    ensures SpecDepsClaim(spec, read) == Fixed(SpecDeps(SpecClosure(w.stages.resolve(texts), spec)))
  {
    assert ResolvesWell(w, texts);
    GraphGivesClosure(w.stages.resolve(texts), spec);
  }

  lemma EvalSpecDeps(w: World, texts: seq<string>, spec: nat)
    requires Grounded(w, texts)
    ensures Eval(ClaimsNow(w, texts), SpecDepsKey(spec)) == Value(SpecDeps(SpecClosure(w.stages.resolve(texts), spec)))
  {
    hide Grounded, SpecDepsClaim;
    var c, k := ClaimsNow(w, texts), SpecDepsKey(spec);
    var graph := WholeProgramValue(w, texts, true);
    EvalWholeProgram(w, texts, true);
    FirstAsk(spec);
    assert c.step(k, []) == Query(SPEC_GRAPH_KEY);
    assert [] + [graph] == [graph];
    SpecDepsClaimNow(w, texts, spec, [graph]);
    assert c.step(k, [graph]) == SpecDepsClaim(spec, [graph]);
    assert Run(c, k, [graph]) == Value(SpecDeps(SpecClosure(w.stages.resolve(texts), spec)));
  }

  lemma FirstAsk(spec: nat)
    ensures SpecDepsClaim(spec, []) == Query(SPEC_GRAPH_KEY)
  {}

  // ---- The session's programs step as claimed ----

  ghost predicate TruthfulNow(w: World, texts: seq<string>, k: Key, read: seq<Value>) {
    Truthful(HostNow(w, texts), ClaimsNow(w, texts), k, read)
  }

  lemma TruthfulIsNow(w: World, texts: seq<string>, k: Key, read: seq<Value>)
    requires Truthful(HostNow(w, texts), ClaimsNow(w, texts), k, read)
    ensures TruthfulNow(w, texts, k, read)
  {}

  lemma ReadAt(w: World, texts: seq<string>, k: Key, read: seq<Value>, i: nat)
    requires TruthfulNow(w, texts, k, read) && i < |read|
    ensures Answers(HostNow(w, texts), ClaimsNow(w, texts),
                    Compute(w.stages, ProgramOf(w, texts), k, read[..i]), read[i])
  {
    assert HostNow(w, texts).step(k, read[..i]) == Compute(w.stages, ProgramOf(w, texts), k, read[..i]);
  }

  lemma ParsesWereRead(w: World, texts: seq<string>, graph: bool, read: seq<Value>)
    requires Grounded(w, texts) && TruthfulNow(w, texts, WholeProgramKey(graph), read)
    ensures read == [] || (|read| - 1 <= |texts| && read == ParsesRead(w, texts, |read| - 1))
  {
    if read != [] {
      ReadAt(w, texts, WholeProgramKey(graph), read, 0);
      assert read[..0] == [];
      if |read| - 1 > |texts| {
        ReadAt(w, texts, WholeProgramKey(graph), read, |texts| + 1);
      }
      forall i | 0 <= i < |read| - 1 ensures read[i + 1] == DigestText(w.stages, Some(texts[i])) {
        ReadAt(w, texts, WholeProgramKey(graph), read, i + 1);
        EvalParse(w, texts, i);
      }
    }
  }

  lemma InterfaceReads(w: World, texts: seq<string>, file: nat, read: seq<Value>)
    requires Grounded(w, texts) && TruthfulNow(w, texts, InterfaceKey(file), read) && |read| >= 2
    ensures read == [ParseDigestOf(w.stages, ProgramOf(w, texts), file), ResolutionOf(w, texts)]
  {
    ReadAt(w, texts, InterfaceKey(file), read, 0);
    ReadAt(w, texts, InterfaceKey(file), read, 1);
    EvalParse(w, texts, file);
    EvalWholeProgram(w, texts, false);
    if |read| > 2 { ReadAt(w, texts, InterfaceKey(file), read, 2); }
  }

  lemma InterfacesAt(p: Program, n: nat, i: nat)
    requires i < n
    ensures |InterfacesOf(p, n)| == n && InterfacesOf(p, n)[i] == BuildInterface(p, i)
  {
    InterfacesLength(p, n - 1);
    if i < n - 1 { InterfacesAt(p, n - 1, i); }
  }

  lemma InterfaceReadAt(w: World, texts: seq<string>, symbol: nat, read: seq<Value>, i: nat)
    requires Grounded(w, texts) && InterfacesLocal(w) && TruthfulNow(w, texts, TypeOfKey(symbol), read)
    requires i + 1 < |read|
    ensures i < |texts| && read[i + 1] == BuildInterface(ProgramOf(w, texts), i)
  {
    hide InterfacesLocal, Grounded, BuildInterface, TruthfulNow;
    ReadAt(w, texts, TypeOfKey(symbol), read, i + 1);
    EvalInterface(w, texts, i);
  }

  lemma InterfacesWereRead(w: World, texts: seq<string>, symbol: nat, read: seq<Value>)
    requires Grounded(w, texts) && InterfacesLocal(w) && TruthfulNow(w, texts, TypeOfKey(symbol), read)
    requires read != []
    ensures |read| - 1 <= |texts| && read == InterfacesRead(w, texts, |read| - 1)
  {
    hide InterfacesLocal, Grounded, BuildInterface, TruthfulNow;
    var p, n := ProgramOf(w, texts), |read| - 1;
    ReadAt(w, texts, TypeOfKey(symbol), read, 0);
    EvalWholeProgram(w, texts, false);
    if n > |texts| { InterfaceReadAt(w, texts, symbol, read, |texts|); }
    InterfacesLength(p, n);
    forall i | 0 <= i < n ensures read[1..][i] == InterfacesOf(p, n)[i] {
      InterfaceReadAt(w, texts, symbol, read, i);
      InterfacesAt(p, n, i);
    }
    assert read[1..] == InterfacesOf(p, n);
    assert read == [read[0]] + read[1..];
  }

  lemma ParseFits(w: World, texts: seq<string>, file: nat, read: seq<Value>)
    requires TruthfulNow(w, texts, ParseKey(file), read)
    ensures Fits(Compute(w.stages, ProgramOf(w, texts), ParseKey(file), read), ParseClaim(w, file, read))
  {
    if read != [] { ReadAt(w, texts, ParseKey(file), read, 0); }
  }

  lemma WholeProgramFits(w: World, texts: seq<string>, graph: bool, read: seq<Value>)
    requires Grounded(w, texts) && TruthfulNow(w, texts, WholeProgramKey(graph), read)
    ensures Fits(Compute(w.stages, ProgramOf(w, texts), WholeProgramKey(graph), read),
                 WholeProgramClaim(w, graph, read))
  {
    ParsesWereRead(w, texts, graph, read);
    if read != [] { WholeProgramStepsAsClaimed(w, texts, graph, |read| - 1); }
  }

  lemma InterfaceFits(w: World, texts: seq<string>, file: nat, read: seq<Value>)
    requires Grounded(w, texts) && TruthfulNow(w, texts, InterfaceKey(file), read)
    ensures Fits(InterfaceStep(ProgramOf(w, texts), file, read), InterfaceClaim(w, file, read))
  {
    hide Grounded, BuildInterface, BuildResolutionDigest, Explains;
    if |read| >= 2 {
      InterfaceReads(w, texts, file, read);
      if InterfacesLocal(w) { InterfaceClaimNow(w, texts, file); }
    }
  }

  lemma TypeOfFits(w: World, texts: seq<string>, symbol: nat, read: seq<Value>)
    requires Grounded(w, texts) && TruthfulNow(w, texts, TypeOfKey(symbol), read)
    ensures Fits(TypeOfStep(ProgramOf(w, texts), symbol, read), TypeOfClaim(w, symbol, read))
  {
    hide Grounded, InterfacesLocal, BuildInterface, BuildResolutionDigest, FindSignature;
    if read != [] && InterfacesLocal(w) {
      InterfacesWereRead(w, texts, symbol, read);
      TypeOfClaimNow(w, texts, symbol, |read| - 1);
    }
  }

  lemma SpecDepsFits(w: World, texts: seq<string>, spec: nat, read: seq<Value>)
    requires Grounded(w, texts) && TruthfulNow(w, texts, SpecDepsKey(spec), read)
    ensures Fits(SpecDepsStep(ProgramOf(w, texts), spec, read), SpecDepsClaim(spec, read))
  {
    hide Grounded, TruthfulNow, WholeProgramValue;
    if read == [] {
      FirstAsk(spec);
    } else {
      GraphWasRead(w, texts, spec, read);
      hide SpecDepsClaim;
      SpecDepsClaimNow(w, texts, spec, read);
    }
  }

  lemma GraphWasRead(w: World, texts: seq<string>, spec: nat, read: seq<Value>)
    requires Grounded(w, texts) && TruthfulNow(w, texts, SpecDepsKey(spec), read) && read != []
    ensures read[0] == WholeProgramValue(w, texts, true)
  {
    hide Grounded, TruthfulNow, WholeProgramValue;
    ReadAt(w, texts, SpecDepsKey(spec), read, 0);
    EvalWholeProgram(w, texts, true);
  }

  lemma ComputeFits(w: World, texts: seq<string>, k: Key, read: seq<Value>)
    requires Grounded(w, texts) && TruthfulNow(w, texts, k, read)
    ensures Fits(Compute(w.stages, ProgramOf(w, texts), k, read), Claim(w, k, read))
  {
    hide Grounded, TruthfulNow, ParseClaim, WholeProgramClaim, InterfaceClaim, TypeOfClaim, SpecDepsClaim;
    if k.kind == PARSE { ParseFits(w, texts, k.arg, read); }
    else if k == RESOLUTION_KEY { WholeProgramFits(w, texts, false, read); }
    else if k == SPEC_GRAPH_KEY { WholeProgramFits(w, texts, true, read); }
    else if k.kind == INTERFACE { InterfaceFits(w, texts, k.arg, read); }
    else if k.kind == TYPE_OF { TypeOfFits(w, texts, k.arg, read); }
    else if k.kind == SPEC_DEPS { SpecDepsFits(w, texts, k.arg, read); }
  }

  // Snapshot reads are harmless: the claims describe the running session.
  lemma ClaimsDescribeSession(w: World, texts: seq<string>)
    requires Grounded(w, texts)
    ensures Describes(ClaimsNow(w, texts), HostNow(w, texts))
  {
    hide Grounded, Claim, Compute, TruthfulNow;
    var c, h := ClaimsNow(w, texts), HostNow(w, texts);
    HostIsWellRanked(w.stages, ProgramOf(w, texts));
    forall k, read | Truthful(h, c, k, read) ensures Fits(h.step(k, read), c.step(k, read)) {
      assert TruthfulNow(w, texts, k, read) by { TruthfulIsNow(w, texts, k, read); }
      ComputeFits(w, texts, k, read);
    }
  }
}
