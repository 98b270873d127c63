// The compiler stages as the incremental session sees them: unknown functions of
// the source texts, the whole program they produce, and the comparable
// values the per-item queries slice out of it.

module FrontEnd {
  import opened QueryModel

  const MAX_U32: nat := 0xFFFF_FFFF

  // ---- Resolution ----

  datatype SymbolKind =
    | ModuleSymbol | Function | Struct | Enum | Variant | Interface
    | Const | Spec | TypeParam | Param | Local

  // `declaration` is the file of the declaring name token, if one is written.
  datatype Symbol = Symbol(name: string, kind: SymbolKind, isPub: bool, declaration: Option<nat>)

  // Symbols by id. `specDeps` and `specTargets` are filled by the resolver as it
  // walks spec blocks; `specHomes` is the file each spec block stands in.
  datatype Resolution = Resolution(
    symbols: seq<Symbol>,
    specDeps: map<nat, seq<nat>>,
    specTargets: map<nat, nat>,
    specHomes: map<nat, nat>,
    builtins: set<nat>)
  {
    function DependenciesOf(id: nat): seq<nat> {
      if id in specDeps then specDeps[id] else []
    }

    function TargetOf(spec: nat): Option<nat> {
      if spec in specTargets then Some(specTargets[spec]) else None
    }

    function KindOf(id: nat): Option<SymbolKind> {
      if id < |symbols| then Some(symbols[id].kind) else None
    }

    function DefiningFile(id: nat): Option<nat> {
      if id < |symbols| then symbols[id].declaration else None
    }
  }

  function KindTag(kind: SymbolKind): nat {
    match kind
    case ModuleSymbol => 0
    case Function => 1
    case Struct => 2
    case Enum => 3
    case Variant => 4
    case Interface => 5
    case Const => 6
    case Spec => 7
    case TypeParam => 8
    case Param => 9
    case Local => 10
  }

  // The kinds that appear in a file's interface.
  predicate IsItem(kind: SymbolKind) {
    kind.Function? || kind.Struct? || kind.Enum? || kind.Variant? || kind.Interface? || kind.Const?
  }

  // ---- Stages and programs ----

  // A function's body as lowering takes it up: the text its own declaration fixes,
  // with a question wherever lowering looks something up elsewhere in the program: the
  // value of a const it names, the position of a field, whether a type is copied.
  datatype Piece = Words(text: string) | Asks(question: string)

  datatype Body = Body(symbol: nat, outline: seq<Piece>, span: Option<string>)

  // A question without an answer, such as a const whose initializer traps, leaves the
  // function unlowered.
  function Fill(outline: seq<Piece>, answers: map<string, string>): Option<string> {
    if outline == [] then Some("")
    else
      var rest := Fill(outline[1..], answers);
      if rest.None? then None
      else
        match outline[0]
        case Words(text) => Some(text + rest.value)
        case Asks(question) => if question in answers then Some(answers[question] + rest.value) else None
  }

  // One lowered function: its symbol, its rendered MIR, and the source text of its
  // declaration when the span can be located.
  datatype Lowered = Lowered(symbol: nat, mir: string, span: Option<string>)

  function LowerBodies(bodies: seq<Body>, answers: nat -> map<string, string>): seq<Lowered> {
    if bodies == [] then []
    else
      var b := bodies[|bodies| - 1];
      var rest := LowerBodies(bodies[..|bodies| - 1], answers);
      var mir := Fill(b.outline, answers(b.symbol));
      if mir.Some? then rest + [Lowered(b.symbol, mir.value, b.span)] else rest
  }

  // `answers` is what the program answers the questions of one function.
  datatype Stages = Stages(
    parseCodes: string -> seq<string>,
    fingerprint: string -> nat,
    resolve: seq<string> -> Resolution,
    check: seq<string> -> map<nat, string>,
    accepts: seq<string> -> bool,
    bodies: seq<string> -> seq<Body>,
    answers: seq<string> -> (nat -> map<string, string>))
  {
    function Lower(texts: seq<string>): seq<Lowered> {
      LowerBodies(bodies(texts), answers(texts))
    }
  }

  // One whole-program compilation of the given texts, in file order.
  datatype Program = Program(
    texts: seq<string>,
    resolution: Resolution,
    types: map<nat, string>,
    mir: map<nat, string>,
    fnBody: map<nat, nat>,
    accepted: bool)

  // Later functions overwrite earlier ones, as map insertion does.
  function MirOf(functions: seq<Lowered>): map<nat, string> {
    if functions == [] then map[]
    else
      var f := functions[|functions| - 1];
      MirOf(functions[..|functions| - 1])[f.symbol := f.mir]
  }

  function BodiesOf(stages: Stages, functions: seq<Lowered>): map<nat, nat> {
    if functions == [] then map[]
    else
      var f := functions[|functions| - 1];
      var rest := BodiesOf(stages, functions[..|functions| - 1]);
      if f.span.Some? then rest[f.symbol := stages.fingerprint(f.span.value)] else rest
  }

  // Compile every file's current text; MIR exists only for an accepted program.
  function CompileWholeProgram(stages: Stages, texts: seq<string>): Program {
    var accepted := stages.accepts(texts);
    var functions := if accepted then stages.Lower(texts) else [];
    Program(texts, stages.resolve(texts), stages.check(texts),
             MirOf(functions), BodiesOf(stages, functions), accepted)
  }

  // ---- Stored values ----

  datatype InterfaceItem =
    InterfaceItem(symbol: nat, name: string, kindTag: nat, isPub: bool, signature: Option<string>)

  datatype SpecEntry = SpecEntry(spec: nat, target: nat, deps: seq<nat>)

  datatype Value =
    | SourceText(text: Option<string>)
    | FileSet(count: nat)
    | ParseDigest(content: nat, codes: seq<string>)
    | InterfaceDigest(items: seq<InterfaceItem>)
    | ResolutionDigest(symbols: seq<(string, nat)>)
    | SpecGraphDigest(graph: seq<SpecEntry>)
    | SignatureType(signature: Option<string>)
    | MirText(mir: string)
    | SpecDeps(deps: seq<nat>)
    | BodyHash(hash: nat)

  // ---- Slices of a program ----

  function DigestText(stages: Stages, text: Option<string>): Value {
    match text
    case None => ParseDigest(0, [])
    case Some(t) => ParseDigest(stages.fingerprint(t), stages.parseCodes(t))
  }

  function LatestText(texts: seq<string>, file: nat): Option<string> {
    if file < |texts| then Some(texts[file]) else None
  }

  // Body-sensitive on purpose: any edit to the file changes it.
  function ParseDigestOf(stages: Stages, p: Program, file: nat): Value {
    DigestText(stages, LatestText(p.texts, file))
  }

  function BuildResolutionDigest(resolution: Resolution): Value {
    ResolutionDigest(seq(|resolution.symbols|, i requires 0 <= i < |resolution.symbols| =>
      (resolution.symbols[i].name, KindTag(resolution.symbols[i].kind))))
  }

  // The signature of one symbol as an interface records it.
  function ItemOf(p: Program, id: nat): InterfaceItem
    requires id < |p.resolution.symbols|
  {
    var symbol := p.resolution.symbols[id];
    InterfaceItem(id, symbol.name, KindTag(symbol.kind), symbol.isPub,
                  if id in p.types then Some(p.types[id]) else None)
  }

  predicate InInterface(resolution: Resolution, file: nat, id: nat) {
    id < |resolution.symbols| && resolution.symbols[id].declaration == Some(file) && IsItem(resolution.symbols[id].kind)
  }

  // The items of `file` with ids below `upTo`, in id order, bodies excluded.
  function InterfaceItems(p: Program, file: nat, upTo: nat): seq<InterfaceItem>
    requires upTo <= |p.resolution.symbols|
  {
    if upTo == 0 then []
    else
      var rest := InterfaceItems(p, file, upTo - 1);
      if InInterface(p.resolution, file, upTo - 1) then rest + [ItemOf(p, upTo - 1)] else rest
  }

  function BuildInterface(p: Program, file: nat): Value {
    InterfaceDigest(InterfaceItems(p, file, |p.resolution.symbols|))
  }

  function SpecEntries(resolution: Resolution, upTo: nat): seq<SpecEntry>
    requires upTo <= |resolution.symbols|
  {
    if upTo == 0 then []
    else
      var id := upTo - 1;
      var rest := SpecEntries(resolution, id);
      if resolution.symbols[id].kind.Spec? then
        rest + [SpecEntry(id, resolution.TargetOf(id).GetOr(MAX_U32), resolution.DependenciesOf(id))]
      else rest
  }

  function BuildSpecGraphDigest(resolution: Resolution): Value {
    SpecGraphDigest(SpecEntries(resolution, |resolution.symbols|))
  }

  function TypeOf(p: Program, id: nat): Value {
    SignatureType(if id in p.types then Some(p.types[id]) else None)
  }

  function BodyOf(p: Program, id: nat): Value {
    BodyHash(if id in p.fnBody then p.fnBody[id] else 0)
  }

  function MirTextOf(p: Program, id: nat): Value {
    MirText(if id in p.mir then p.mir[id] else "")
  }
}
