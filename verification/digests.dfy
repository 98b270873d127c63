// What the digests that queries store tell apart: two programs have the same digest
// exactly when nothing that readers of the digest rely on differs.

module Digests {
  import opened QueryModel
  import opened FrontEnd

  lemma KindTagTells(a: SymbolKind, b: SymbolKind)
    requires KindTag(a) == KindTag(b)
    ensures a == b
  {}

  // ---- Resolution ----

  // One entry for every symbol id, with the symbol's own name and its kind.
  predicate TellsSymbols(digest: Value, r: Resolution) {
    && digest.ResolutionDigest? && |digest.symbols| == |r.symbols|
    && forall id :: 0 <= id < |r.symbols| ==>
      digest.symbols[id].0 == r.symbols[id].name && digest.symbols[id].1 == KindTag(r.symbols[id].kind)
  }

  predicate SameSymbols(r: Resolution, other: Resolution) {
    && |r.symbols| == |other.symbols|
    && forall id :: 0 <= id < |r.symbols| ==>
      r.symbols[id].name == other.symbols[id].name && r.symbols[id].kind == other.symbols[id].kind
  }

  lemma DigestTellsSymbols(r: Resolution)
    ensures TellsSymbols(BuildResolutionDigest(r), r)
  {}

  // Renaming a symbol, changing what it is, adding or removing one: each shows.
  lemma ResolutionTellsExactly(r: Resolution, other: Resolution)
    ensures BuildResolutionDigest(r) == BuildResolutionDigest(other) <==> SameSymbols(r, other)
  {
    var a, b := BuildResolutionDigest(r), BuildResolutionDigest(other);
    if a == b {
      forall id | 0 <= id < |r.symbols|
        ensures r.symbols[id].name == other.symbols[id].name && r.symbols[id].kind == other.symbols[id].kind
      {
        assert a.symbols[id] == b.symbols[id];
        KindTagTells(r.symbols[id].kind, other.symbols[id].kind);
      }
    }
    if SameSymbols(r, other) { assert a.symbols == b.symbols; }
  }

  // ---- Interfaces ----

  // The symbol is an item that `file` declares, in both programs or in neither, and
  // looks the same from outside: name, kind, visibility and signature.
  predicate SameItem(p: Program, q: Program, file: nat, id: nat) {
    && (InInterface(p.resolution, file, id) <==> InInterface(q.resolution, file, id))
    && (InInterface(p.resolution, file, id) ==>
          var s, t := p.resolution.symbols[id], q.resolution.symbols[id];
          && s.name == t.name && s.kind == t.kind && s.isPub == t.isPub
          && (id in p.types <==> id in q.types) && (id in p.types ==> p.types[id] == q.types[id]))
  }

  lemma ItemTells(p: Program, q: Program, file: nat, id: nat)
    requires InInterface(p.resolution, file, id) && InInterface(q.resolution, file, id)
    ensures ItemOf(p, id) == ItemOf(q, id) <==> SameItem(p, q, file, id)
  {
    if ItemOf(p, id) == ItemOf(q, id) { KindTagTells(p.resolution.symbols[id].kind, q.resolution.symbols[id].kind); }
  }

  // The items listed are the file's, each once, by its id.
  lemma {:induction false} ItemsAre(p: Program, file: nat, upTo: nat, item: InterfaceItem)
    requires upTo <= |p.resolution.symbols|
    ensures item in InterfaceItems(p, file, upTo) <==> (
      item.symbol < upTo && InInterface(p.resolution, file, item.symbol) && item == ItemOf(p, item.symbol))
  {
    if upTo > 0 { ItemsAre(p, file, upTo - 1, item); }
  }

  lemma {:induction false} SameItemsAlike(p: Program, q: Program, file: nat, upTo: nat)
    requires upTo <= |p.resolution.symbols| && upTo <= |q.resolution.symbols|
    requires forall id :: 0 <= id < upTo ==> SameItem(p, q, file, id)
    ensures InterfaceItems(p, file, upTo) == InterfaceItems(q, file, upTo)
  {
    if upTo > 0 {
      SameItemsAlike(p, q, file, upTo - 1);
      assert SameItem(p, q, file, upTo - 1);
      if InInterface(p.resolution, file, upTo - 1) { ItemTells(p, q, file, upTo - 1); }
    }
  }

  lemma {:induction false} NoMoreItems(p: Program, file: nat, from: nat, upTo: nat)
    requires from <= upTo <= |p.resolution.symbols|
    requires forall id :: from <= id < upTo ==> !InInterface(p.resolution, file, id)
    ensures InterfaceItems(p, file, upTo) == InterfaceItems(p, file, from)
  {
    if from < upTo { NoMoreItems(p, file, from, upTo - 1); }
  }

  lemma LongerSame(p: Program, q: Program, file: nat)
    requires |p.resolution.symbols| <= |q.resolution.symbols|
    requires forall id :: SameItem(p, q, file, id)
    ensures BuildInterface(p, file) == BuildInterface(q, file)
  {
    hide SameItem;
    var n := |p.resolution.symbols|;
    SameItemsAlike(p, q, file, n);
    forall id | n <= id < |q.resolution.symbols| ensures !InInterface(q.resolution, file, id) {
      NotThere(p, q, file, id);
    }
    NoMoreItems(q, file, n, |q.resolution.symbols|);
  }

  lemma NotThere(p: Program, q: Program, file: nat, id: nat)
    requires SameItem(p, q, file, id) && id >= |p.resolution.symbols|
    ensures !InInterface(q.resolution, file, id)
  {}

  lemma SameItemSymmetric(p: Program, q: Program, file: nat, id: nat)
    ensures SameItem(p, q, file, id) <==> SameItem(q, p, file, id)
  {}

  // Two programs give a file the same interface exactly when it declares the same items
  // with the same names, kinds, visibilities and signatures. Bodies do not show.
  lemma InterfaceTellsExactly(p: Program, q: Program, file: nat)
    ensures BuildInterface(p, file) == BuildInterface(q, file) <==> forall id :: SameItem(p, q, file, id)
  {
    hide SameItem, InInterface;
    if BuildInterface(p, file) == BuildInterface(q, file) {
      forall id ensures SameItem(p, q, file, id) { SameInterfaceSameItem(p, q, file, id); }
    }
    if forall id :: SameItem(p, q, file, id) {
      forall id ensures SameItem(q, p, file, id) { SameItemSymmetric(p, q, file, id); }
      if |p.resolution.symbols| <= |q.resolution.symbols| { LongerSame(p, q, file); } else { LongerSame(q, p, file); }
    }
  }

  lemma SameInterfaceSameItem(p: Program, q: Program, file: nat, id: nat)
    requires BuildInterface(p, file) == BuildInterface(q, file)
    ensures SameItem(p, q, file, id)
  {
    var items := InterfaceItems(p, file, |p.resolution.symbols|);
    assert items == InterfaceItems(q, file, |q.resolution.symbols|);
    if InInterface(p.resolution, file, id) {
      ItemsAre(p, file, |p.resolution.symbols|, ItemOf(p, id));
      ItemsAre(q, file, |q.resolution.symbols|, ItemOf(p, id));
      ItemTells(p, q, file, id);
    }
    if InInterface(q.resolution, file, id) {
      ItemsAre(p, file, |p.resolution.symbols|, ItemOf(q, id));
      ItemsAre(q, file, |q.resolution.symbols|, ItemOf(q, id));
    }
  }

  // ---- The spec graph ----

  // A symbol is a spec in both or in neither, with the same recorded target and
  // dependencies. No target is recorded like the greatest id there is.
  predicate SameSpec(r: Resolution, other: Resolution, id: nat) {
    && (r.KindOf(id) == Some(Spec) <==> other.KindOf(id) == Some(Spec))
    && (r.KindOf(id) == Some(Spec) ==>
          && r.TargetOf(id).GetOr(MAX_U32) == other.TargetOf(id).GetOr(MAX_U32)
          && r.DependenciesOf(id) == other.DependenciesOf(id))
  }

  lemma {:induction false} EntriesAre(r: Resolution, upTo: nat, e: SpecEntry)
    requires upTo <= |r.symbols|
    ensures e in SpecEntries(r, upTo) <==> (
      && e.spec < upTo && r.symbols[e.spec].kind.Spec?
      && e.target == r.TargetOf(e.spec).GetOr(MAX_U32) && e.deps == r.DependenciesOf(e.spec))
  {
    if upTo > 0 { EntriesAre(r, upTo - 1, e); }
  }

  function EntryFor(r: Resolution, id: nat): SpecEntry {
    SpecEntry(id, r.TargetOf(id).GetOr(MAX_U32), r.DependenciesOf(id))
  }

  lemma {:induction false} SameSpecsAlike(r: Resolution, other: Resolution, upTo: nat)
    requires upTo <= |r.symbols| && upTo <= |other.symbols|
    requires forall id :: 0 <= id < upTo ==> SameSpec(r, other, id)
    ensures SpecEntries(r, upTo) == SpecEntries(other, upTo)
  {
    if upTo > 0 {
      SameSpecsAlike(r, other, upTo - 1);
      assert SameSpec(r, other, upTo - 1);
    }
  }

  lemma {:induction false} NoMoreSpecs(r: Resolution, from: nat, upTo: nat)
    requires from <= upTo <= |r.symbols|
    requires forall id :: from <= id < upTo ==> !r.symbols[id].kind.Spec?
    ensures SpecEntries(r, upTo) == SpecEntries(r, from)
  {
    if from < upTo { NoMoreSpecs(r, from, upTo - 1); }
  }

  lemma LongerGraph(r: Resolution, other: Resolution)
    requires |r.symbols| <= |other.symbols| && forall id :: SameSpec(r, other, id)
    ensures BuildSpecGraphDigest(r) == BuildSpecGraphDigest(other)
  {
    var n := |r.symbols|;
    SameSpecsAlike(r, other, n);
    forall id | n <= id < |other.symbols| ensures !other.symbols[id].kind.Spec? {
      assert SameSpec(r, other, id);
    }
    NoMoreSpecs(other, n, |other.symbols|);
  }

  // Two programs have the same spec graph exactly when they have the same specs, each
  // with the same target and dependencies.
  lemma SpecGraphTellsExactly(r: Resolution, other: Resolution)
    ensures BuildSpecGraphDigest(r) == BuildSpecGraphDigest(other) <==> forall id :: SameSpec(r, other, id)
  {
    hide SameSpec;
    if BuildSpecGraphDigest(r) == BuildSpecGraphDigest(other) {
      forall id ensures SameSpec(r, other, id) { SameGraphSameSpec(r, other, id); }
    }
    if forall id :: SameSpec(r, other, id) {
      forall id ensures SameSpec(other, r, id) { SameSpecSymmetric(r, other, id); }
      if |r.symbols| <= |other.symbols| { LongerGraph(r, other); } else { LongerGraph(other, r); }
    }
  }

  lemma SameSpecSymmetric(r: Resolution, other: Resolution, id: nat)
    ensures SameSpec(r, other, id) <==> SameSpec(other, r, id)
  {}

  lemma SameGraphSameSpec(r: Resolution, other: Resolution, id: nat)
    requires BuildSpecGraphDigest(r) == BuildSpecGraphDigest(other)
    ensures SameSpec(r, other, id)
  {
    var graph := BuildSpecGraphDigest(r).graph;
    assert graph == SpecEntries(r, |r.symbols|) == SpecEntries(other, |other.symbols|);
    EntriesAre(r, |r.symbols|, EntryFor(r, id));
    EntriesAre(other, |other.symbols|, EntryFor(r, id));
    EntriesAre(r, |r.symbols|, EntryFor(other, id));
    EntriesAre(other, |other.symbols|, EntryFor(other, id));
  }
}
