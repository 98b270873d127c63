// The incremental session's host: what each of the ten query kinds reads through
// the engine, and the value it slices out of the whole program.

module SessionHost {
  import opened QueryModel
  import opened FrontEnd
  import opened SpecClosures

  const SOURCE: nat := 0
  const FILE_SET: nat := 1
  const PARSE: nat := 2
  const INTERFACE: nat := 3
  const RESOLUTION: nat := 4
  const TYPE_OF: nat := 5
  const MIR_OF: nat := 6
  const SPEC_DEPS: nat := 7
  const FN_BODY: nat := 8
  const SPEC_GRAPH: nat := 9

  const FILE_SET_KEY := Key(FILE_SET, 0)
  const RESOLUTION_KEY := Key(RESOLUTION, 0)
  const SPEC_GRAPH_KEY := Key(SPEC_GRAPH, 0)

  function SourceKey(file: nat): Key { Key(SOURCE, file) }
  function ParseKey(file: nat): Key { Key(PARSE, file) }
  function InterfaceKey(file: nat): Key { Key(INTERFACE, file) }
  function TypeOfKey(symbol: nat): Key { Key(TYPE_OF, symbol) }
  function BodyKey(symbol: nat): Key { Key(FN_BODY, symbol) }
  function MirOfKey(symbol: nat): Key { Key(MIR_OF, symbol) }
  function SpecDepsKey(symbol: nat): Key { Key(SPEC_DEPS, symbol) }

  // Every kind reads kinds of strictly smaller rank: the wiring is acyclic.
  function Rank(k: Key): nat {
    if k.kind == SOURCE || k.kind == FILE_SET then 0
    else if k.kind == PARSE then 1
    else if k.kind == RESOLUTION || k.kind == SPEC_GRAPH || k.kind == FN_BODY then 2
    else if k.kind == INTERFACE then 3
    else if k.kind == TYPE_OF then 4
    else 5
  }

  // ---- Inputs ----

  // File ids are handed out in insertion order, so the file set is its size.
  function InputAt(texts: seq<string>, k: Key): Value {
    if k == FILE_SET_KEY then FileSet(|texts|)
    else SourceText(if k.kind == SOURCE then LatestText(texts, k.arg) else None)
  }

  function Inputs(texts: seq<string>): Key -> Value {
    k => InputAt(texts, k)
  }

  // ---- Query programs ----

  // The parse of every file, then the slice.
  function WholeProgramStep(files: nat, read: seq<Value>, slice: Value): Step<Value> {
    if read == [] then Input(FILE_SET_KEY)
    else if |read| - 1 < files then Query(ParseKey(|read| - 1))
    else Ret(slice)
  }

  // The functions of a spec's closure, whose types the spec's query asks for.
  function FunctionsIn(r: Resolution, closure: seq<nat>): seq<nat> {
    if closure == [] then []
    else
      var rest := FunctionsIn(r, closure[1..]);
      if r.KindOf(closure[0]) == Some(Function) then [closure[0]] + rest else rest
  }

  function SpecDepsStep(p: Program, spec: nat, read: seq<Value>): Step<Value> {
    var closure := SpecClosure(p.resolution, spec);
    var functions := FunctionsIn(p.resolution, closure);
    if read == [] then Query(SPEC_GRAPH_KEY)
    else if |read| - 1 < |functions| then Query(TypeOfKey(functions[|read| - 1]))
    else Ret(SpecDeps(closure))
  }

  function TypeOfStep(p: Program, symbol: nat, read: seq<Value>): Step<Value> {
    if read == [] then Query(RESOLUTION_KEY)
    else if |read| - 1 < |p.texts| then Query(InterfaceKey(|read| - 1))
    else Ret(TypeOf(p, symbol))
  }

  function FnBodyStep(p: Program, symbol: nat, read: seq<Value>): Step<Value> {
    var file := p.resolution.DefiningFile(symbol);
    if file.Some? && read == [] then Query(ParseKey(file.value)) else Ret(BodyOf(p, symbol))
  }

  function InterfaceStep(p: Program, file: nat, read: seq<Value>): Step<Value> {
    if read == [] then Query(ParseKey(file))
    else if |read| == 1 then Query(RESOLUTION_KEY)
    else Ret(BuildInterface(p, file))
  }

  function MirOfStep(p: Program, symbol: nat, read: seq<Value>): Step<Value> {
    if read == [] then Query(TypeOfKey(symbol))
    else if |read| == 1 then Query(BodyKey(symbol))
    else Ret(MirTextOf(p, symbol))
  }

  function Compute(stages: Stages, p: Program, k: Key, read: seq<Value>): Step<Value> {
    if k.kind == PARSE then
      if read == [] then Input(SourceKey(k.arg)) else Ret(ParseDigestOf(stages, p, k.arg))
    else if k.kind == INTERFACE then InterfaceStep(p, k.arg, read)
    else if k.kind == RESOLUTION then
      WholeProgramStep(|p.texts|, read, BuildResolutionDigest(p.resolution))
    else if k.kind == SPEC_GRAPH then
      WholeProgramStep(|p.texts|, read, BuildSpecGraphDigest(p.resolution))
    else if k.kind == TYPE_OF then TypeOfStep(p, k.arg, read)
    else if k.kind == FN_BODY then FnBodyStep(p, k.arg, read)
    else if k.kind == MIR_OF then MirOfStep(p, k.arg, read)
    else if k.kind == SPEC_DEPS then SpecDepsStep(p, k.arg, read)
    // The session registers no other kind.
    else Ret(FileSet(0))
  }

  function Asked(p: Program, k: Key): nat {
    if k.kind == SPEC_DEPS then |FunctionsIn(p.resolution, SpecClosure(p.resolution, k.arg))| + 1
    else |p.texts| + 2
  }

  function HostOf(stages: Stages, p: Program): Host<Value> {
    Host((k, read) => Compute(stages, p, k, read), Inputs(p.texts), Rank, k => Asked(p, k))
  }

  // A step of `k` reads only keys of smaller rank, and no more once `limit` are in.
  predicate Ranks(k: Key, step: Step<Value>, mayAsk: bool) {
    && (step.Query? ==> 0 < Rank(step.key) < Rank(k) && mayAsk)
    && (step.Input? ==> Rank(step.key) == 0 && mayAsk)
  }

  lemma ComputeRanks(stages: Stages, p: Program, k: Key, read: seq<Value>)
    ensures Ranks(k, Compute(stages, p, k, read), |read| < Asked(p, k))
    ensures !Compute(stages, p, k, read).Settled() && !Compute(stages, p, k, read).Fail?
  {}

  lemma HostIsWellRanked(stages: Stages, p: Program)
    ensures WellRanked(HostOf(stages, p)) && Runnable(HostOf(stages, p)) && Total(HostOf(stages, p))
  {
    hide Compute, Asked;
    forall k, read
      ensures Ranks(k, HostOf(stages, p).step(k, read), |read| < HostOf(stages, p).limit(k))
      ensures !HostOf(stages, p).step(k, read).Settled() && !HostOf(stages, p).step(k, read).Fail?
    {
      ComputeRanks(stages, p, k, read);
    }
  }
}
