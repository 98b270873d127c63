// What is claimed of the session's queries: their values as functions of the
// tracked inputs alone. The session's own programs read the snapshot instead, so
// that the two agree is what makes the snapshot reads harmless.

module SessionClaims {
  import opened QueryModel
  import opened FrontEnd
  import opened SpecClosures
  import opened SessionHost

  // File ids are 32-bit.
  const MAX_FILES: nat := 0x1_0000_0000

  // The compiler's stages, the texts a run may give its files, and the first
  // symbol id that is not one of the fixed prelude and builtin symbols.
  datatype World = World(stages: Stages, universe: iset<string>, firstDeclared: nat)

  ghost predicate Over(w: World, texts: seq<string>) {
    |texts| <= MAX_FILES && forall i :: 0 <= i < |texts| ==> texts[i] in w.universe
  }

  // Text fingerprints do not collide, with each other or with "no text".
  ghost predicate NoCollision(w: World) {
    && (forall a, b :: a in w.universe && b in w.universe ==>
          w.stages.fingerprint(a) == w.stages.fingerprint(b) ==> a == b)
    && (forall a :: a in w.universe ==> w.stages.fingerprint(a) != 0)
  }

  // What the resolver guarantees: only specs record dependencies, a declaration
  // lies in a file of the program, and only prelude and builtin items have none.
  ghost predicate ResolvesWell(w: World, texts: seq<string>) {
    var r := w.stages.resolve(texts);
    && RecordsOnlySpecs(r)
    && |r.symbols| <= MAX_U32
    && (forall id :: 0 <= id < |r.symbols| && r.symbols[id].declaration.Some? ==>
      r.symbols[id].declaration.value < |texts|)
    && (forall id :: w.firstDeclared <= id < |r.symbols| && IsItem(r.symbols[id].kind) ==>
      r.symbols[id].declaration.Some?)
  }

  ghost predicate WellResolved(w: World) {
    forall texts :: Over(w, texts) ==> ResolvesWell(w, texts)
  }

  function ProgramOf(w: World, texts: seq<string>): Program {
    CompileWholeProgram(w.stages, texts)
  }

  function ResolutionOf(w: World, texts: seq<string>): Value {
    BuildResolutionDigest(w.stages.resolve(texts))
  }

  // A file's interface is a function of its own text and the resolution digest.
  ghost predicate InterfacesLocal(w: World) {
    forall t1, t2, file: nat :: Over(w, t1) && Over(w, t2) && file < |t1| && file < |t2| ==>
      SameInterface(w, t1, t2, file)
  }

  ghost predicate SameInterface(w: World, t1: seq<string>, t2: seq<string>, file: nat)
    requires file < |t1| && file < |t2|
  {
    t1[file] == t2[file] && ResolutionOf(w, t1) == ResolutionOf(w, t2) ==>
      BuildInterface(ProgramOf(w, t1), file) == BuildInterface(ProgramOf(w, t2), file)
  }

  // ---- Reading texts back out of parse digests ----

  ghost function TextOf(w: World, digest: Value): string {
    if digest.ParseDigest? && exists t :: t in w.universe && w.stages.fingerprint(t) == digest.content then
      var t :| t in w.universe && w.stages.fingerprint(t) == digest.content; t
    else ""
  }

  ghost function TextsOf(w: World, digests: seq<Value>): seq<string> {
    seq(|digests|, i requires 0 <= i < |digests| => TextOf(w, digests[i]))
  }

  lemma TextsComeBack(w: World, texts: seq<string>, digests: seq<Value>)
    requires NoCollision(w) && Over(w, texts) && |digests| == |texts|
    requires forall i :: 0 <= i < |texts| ==> digests[i] == DigestText(w.stages, Some(texts[i]))
    ensures TextsOf(w, digests) == texts
  {
    forall i | 0 <= i < |texts| ensures TextsOf(w, digests)[i] == texts[i] {
      assert w.stages.fingerprint(texts[i]) == digests[i].content;
    }
  }

  // ---- The claims ----

  ghost function ParseClaim(w: World, file: nat, read: seq<Value>): Step<Value> {
    if read == [] then Input(SourceKey(file))
    else if read[0].SourceText? then Ret(DigestText(w.stages, read[0].text))
    else Unclaimed
  }

  ghost function WholeProgramClaim(w: World, graph: bool, read: seq<Value>): Step<Value> {
    if read == [] then Input(FILE_SET_KEY)
    else if !read[0].FileSet? || read[0].count > MAX_FILES then Unclaimed
    else if |read| - 1 < read[0].count then Query(ParseKey(|read| - 1))
    else
      var r := w.stages.resolve(TextsOf(w, read[1..read[0].count + 1]));
      Ret(if graph then BuildSpecGraphDigest(r) else BuildResolutionDigest(r))
  }

  // Some program over the universe has this parse of `file` and this resolution.
  ghost predicate Explains(w: World, texts: seq<string>, file: nat, parse: Value, resolution: Value) {
    && Over(w, texts)
    && DigestText(w.stages, LatestText(texts, file)) == parse
    && ResolutionOf(w, texts) == resolution
  }

  ghost function InterfaceClaim(w: World, file: nat, read: seq<Value>): Step<Value> {
    if !InterfacesLocal(w) then Unclaimed
    else if read == [] then Query(ParseKey(file))
    else if |read| == 1 then Query(RESOLUTION_KEY)
    else if exists texts :: Explains(w, texts, file, read[0], read[1]) then
      var texts :| Explains(w, texts, file, read[0], read[1]);
      Ret(BuildInterface(ProgramOf(w, texts), file))
    else Unclaimed
  }

  function ItemSignature(items: seq<InterfaceItem>, symbol: nat): Option<Option<string>> {
    if items == [] then None
    else if items[|items| - 1].symbol == symbol then Some(items[|items| - 1].signature)
    else ItemSignature(items[..|items| - 1], symbol)
  }

  // The signature the first of the interfaces that mentions `symbol` gives it.
  function FindSignature(interfaces: seq<Value>, symbol: nat): Option<Option<string>> {
    if interfaces == [] then None
    else
      var last := interfaces[|interfaces| - 1];
      var front := FindSignature(interfaces[..|interfaces| - 1], symbol);
      if front.Some? then front
      else if last.InterfaceDigest? then ItemSignature(last.items, symbol)
      else None
  }

  predicate IsItemTag(tag: nat) { 1 <= tag <= 6 }

  predicate KnownItem(digest: Value, symbol: nat) {
    digest.ResolutionDigest? && symbol < |digest.symbols| && IsItemTag(digest.symbols[symbol].1)
  }

  function FirstInterfaces(read: seq<Value>): seq<Value>
    requires read != []
  {
    if |read| - 1 <= MAX_FILES then read[1..] else read[1..MAX_FILES + 1]
  }

  ghost function TypeOfClaim(w: World, symbol: nat, read: seq<Value>): Step<Value> {
    if !InterfacesLocal(w) || symbol < w.firstDeclared then Unclaimed
    else if read == [] then Query(RESOLUTION_KEY)
    else if !KnownItem(read[0], symbol) then Unclaimed
    else
      var found := FindSignature(FirstInterfaces(read), symbol);
      if found.Some? then Fixed(SignatureType(found.value))
      else if |read| - 1 < MAX_FILES then Query(InterfaceKey(|read| - 1))
      else Unclaimed
  }

  function FindEntry(graph: seq<SpecEntry>, spec: nat): Option<SpecEntry> {
    if graph == [] then None
    else if graph[|graph| - 1].spec == spec then Some(graph[|graph| - 1])
    else FindEntry(graph[..|graph| - 1], spec)
  }

  // The one-level closure a spec's graph entry describes.
  function EntryClosure(entry: Option<SpecEntry>): seq<nat> {
    match entry
    case None => []
    case Some(e) => Listed(Elements(e.deps) + (if e.target == MAX_U32 then {} else {e.target}))
  }

  ghost function SpecDepsClaim(spec: nat, read: seq<Value>): Step<Value> {
    if read == [] then Query(SPEC_GRAPH_KEY)
    else if read[0].SpecGraphDigest? then Fixed(SpecDeps(EntryClosure(FindEntry(read[0].graph, spec))))
    else Unclaimed
  }

  ghost function Claim(w: World, k: Key, read: seq<Value>): Step<Value> {
    if k.kind == PARSE then ParseClaim(w, k.arg, read)
    else if k == RESOLUTION_KEY then WholeProgramClaim(w, false, read)
    else if k == SPEC_GRAPH_KEY then WholeProgramClaim(w, true, read)
    else if k.kind == INTERFACE then InterfaceClaim(w, k.arg, read)
    else if k.kind == TYPE_OF then TypeOfClaim(w, k.arg, read)
    else if k.kind == SPEC_DEPS then SpecDepsClaim(k.arg, read)
    else Unclaimed
  }

  const CLAIM_LIMIT := MAX_FILES + 2

  // The claims at the given file texts. Only the input values depend on them.
  ghost function Claims(w: World, input: Key -> Value): Host<Value> {
    Host((k, read) => Claim(w, k, read), input, Rank, k => CLAIM_LIMIT)
  }

  lemma ClaimRanks(w: World, k: Key, read: seq<Value>)
    ensures Ranks(k, Claim(w, k, read), |read| < CLAIM_LIMIT)
  {}

  lemma FindStays(interfaces: seq<Value>, v: Value, symbol: nat)
    requires FindSignature(interfaces, symbol).Some?
    ensures FindSignature(interfaces + [v], symbol) == FindSignature(interfaces, symbol)
  {
    assert (interfaces + [v])[..|interfaces|] == interfaces;
  }

  lemma TypeOfClaimStays(w: World, symbol: nat, read: seq<Value>, v: Value)
    requires TypeOfClaim(w, symbol, read).Settled()
    ensures TypeOfClaim(w, symbol, read + [v]) == TypeOfClaim(w, symbol, read)
  {
    if read != [] {
      assert (read + [v])[0] == read[0];
      if |read| - 1 < MAX_FILES {
        assert (read + [v])[1..] == read[1..] + [v];
        if FindSignature(read[1..], symbol).Some? { FindStays(read[1..], v, symbol); }
      } else {
        assert (read + [v])[1..MAX_FILES + 1] == read[1..MAX_FILES + 1];
        assert |read| - 1 == MAX_FILES ==> read[1..] == read[1..MAX_FILES + 1];
      }
    }
  }

  lemma ClaimStays(w: World, k: Key, read: seq<Value>, v: Value)
    requires Claim(w, k, read).Settled()
    ensures Claim(w, k, read + [v]) == Claim(w, k, read)
  {
    hide InterfacesLocal;
    if k.kind == TYPE_OF {
      TypeOfClaimStays(w, k.arg, read, v);
    }
  }

  lemma ClaimsAreWellFormed(w: World, input: Key -> Value)
    ensures WellRanked(Claims(w, input)) && StaysSettled(Claims(w, input))
  {
    hide Claim;
    var c := Claims(w, input);
    forall k, read ensures Ranks(k, c.step(k, read), |read| < c.limit(k)) {
      ClaimRanks(w, k, read);
    }
    forall k, read, v ensures SettledAfter(c, k, read, v) {
      if Claim(w, k, read).Settled() { ClaimStays(w, k, read, v); }
    }
  }
}
