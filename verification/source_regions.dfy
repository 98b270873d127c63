// "Which function am I in", read off declaration starts in two ways: by scanning
// the sorted declarations of a file, and by the region of each function.

module SourceRegions {
  import opened QueryModel

  const LAST_OFFSET: nat := 0xFFFF_FFFF

  datatype SymbolKind = Function | Struct | Enum | Interface | Const | Spec | Param | Local | Other

  // Where a name is declared: its file and the offset its span starts at.
  datatype Declaration = Declaration(file: nat, start: nat)

  datatype Symbol = Symbol(kind: SymbolKind, declaration: Option<Declaration>)

  predicate ModuleLevel(kind: SymbolKind) {
    kind.Function? || kind.Struct? || kind.Enum? || kind.Interface? || kind.Const? || kind.Spec?
  }

  // A module-level declaration of a file: the symbol's id is its place in the list.
  datatype Entry = Entry(start: nat, id: nat, kind: SymbolKind)

  predicate DeclaredIn(symbols: seq<Symbol>, file: nat, id: nat) {
    id < |symbols| && symbols[id].declaration.Some? && symbols[id].declaration.value.file == file
  }

  predicate Listed(symbols: seq<Symbol>, file: nat, id: nat) {
    DeclaredIn(symbols, file, id) && ModuleLevel(symbols[id].kind)
  }

  function EntryOf(symbols: seq<Symbol>, file: nat, id: nat): Entry
    requires Listed(symbols, file, id)
  {
    Entry(symbols[id].declaration.value.start, id, symbols[id].kind)
  }

  // ---- Sorting, keeping the order of equal starts ----

  function Inserted(es: seq<Entry>, e: Entry): seq<Entry> {
    if es == [] || es[|es| - 1].start <= e.start then es + [e]
    else Inserted(es[..|es| - 1], e) + [es[|es| - 1]]
  }

  function Sorted(es: seq<Entry>): seq<Entry> {
    if es == [] then [] else Inserted(Sorted(es[..|es| - 1]), es[|es| - 1])
  }

  // By start, then by id.
  predicate Earlier(a: Entry, b: Entry) { a.start < b.start || (a.start == b.start && a.id < b.id) }

  predicate InOrder(es: seq<Entry>) { forall i, j :: 0 <= i < j < |es| ==> Earlier(es[i], es[j]) }

  lemma {:induction false} InsertedMembers(es: seq<Entry>, e: Entry)
    ensures forall x :: x in Inserted(es, e) <==> x in es || x == e
  {
    if es != [] {
      assert es == es[..|es| - 1] + [es[|es| - 1]];
      InsertedMembers(es[..|es| - 1], e);
    }
  }

  lemma {:induction false} InsertedInOrder(es: seq<Entry>, e: Entry)
    requires InOrder(es) && forall x :: x in es ==> x.id < e.id
    ensures InOrder(Inserted(es, e))
  {
    if es != [] && es[|es| - 1].start > e.start {
      var init, last := es[..|es| - 1], es[|es| - 1];
      InsertedInOrder(init, e);
      InsertedMembers(init, e);
      var r := Inserted(init, e);
      forall i | 0 <= i < |r| ensures Earlier(r[i], last) { assert r[i] in r; }
    }
  }

  predicate IdsGrow(es: seq<Entry>) { forall i, j :: 0 <= i < j < |es| ==> es[i].id < es[j].id }

  lemma {:induction false} SortedInOrder(es: seq<Entry>)
    requires IdsGrow(es)
    ensures InOrder(Sorted(es)) && forall x :: x in Sorted(es) <==> x in es
  {
    if es != [] {
      var init, last := es[..|es| - 1], es[|es| - 1];
      assert es == init + [last];
      SortedInOrder(init);
      InsertedMembers(Sorted(init), last);
      InsertedInOrder(Sorted(init), last);
    }
  }

  // ---- The declarations of a file ----

  function Entries(symbols: seq<Symbol>, file: nat, n: nat): seq<Entry>
    requires n <= |symbols|
  {
    if n == 0 then []
    else Entries(symbols, file, n - 1) + (if Listed(symbols, file, n - 1) then [EntryOf(symbols, file, n - 1)] else [])
  }

  method CollectEntries(symbols: seq<Symbol>, file: nat) returns (es: seq<Entry>)
    ensures es == Entries(symbols, file, |symbols|)
  {
    es := [];
    for id := 0 to |symbols|
      invariant es == Entries(symbols, file, id)
    {
      if Listed(symbols, file, id) { es := es + [EntryOf(symbols, file, id)]; }
    }
  }

  lemma {:induction false} EntriesAre(symbols: seq<Symbol>, file: nat, n: nat)
    requires n <= |symbols|
    ensures IdsGrow(Entries(symbols, file, n))
    ensures forall e :: e in Entries(symbols, file, n) <==> (
      e.id < n && Listed(symbols, file, e.id) && e == EntryOf(symbols, file, e.id))
  {
    if n > 0 {
      EntriesAre(symbols, file, n - 1);
      var init := Entries(symbols, file, n - 1);
      assert forall i :: 0 <= i < |init| ==> init[i] in init;
    }
  }

  function InSourceOrder(symbols: seq<Symbol>, file: nat): seq<Entry> {
    Sorted(Entries(symbols, file, |symbols|))
  }

  lemma SourceOrder(symbols: seq<Symbol>, file: nat)
    ensures InOrder(InSourceOrder(symbols, file))
    ensures forall e :: e in InSourceOrder(symbols, file) <==> (
      Listed(symbols, file, e.id) && e == EntryOf(symbols, file, e.id))
  {
    EntriesAre(symbols, file, |symbols|);
    SortedInOrder(Entries(symbols, file, |symbols|));
  }

  // ---- The enclosing function, by scanning ----

  // The entry the scan stops on.
  function LastUpTo(es: seq<Entry>, at: nat): Option<Entry> {
    if es == [] || es[0].start > at then None
    else
      var later := LastUpTo(es[1..], at);
      if later.Some? then later else Some(es[0])
  }

  function FunctionOf(e: Option<Entry>): Option<nat> {
    if e.Some? && e.value.kind.Function? then Some(e.value.id) else None
  }

  function EnclosingFunction(symbols: seq<Symbol>, file: nat, at: nat): Option<nat> {
    FunctionOf(LastUpTo(InSourceOrder(symbols, file), at))
  }

  method FindEnclosingFunction(symbols: seq<Symbol>, file: nat, at: nat) returns (r: Option<nat>)
    ensures r == EnclosingFunction(symbols, file, at)
  {
    var decls := CollectEntries(symbols, file);
    decls := Sorted(decls);
    var current: Option<Entry> := None;
    var i := 0;
    while i < |decls| && decls[i].start <= at
      invariant i <= |decls|
      invariant LastUpTo(decls, at) == if LastUpTo(decls[i..], at).Some? then LastUpTo(decls[i..], at) else current
    {
      assert decls[i..][1..] == decls[i + 1..];
      current := Some(decls[i]);
      i := i + 1;
    }
    r := FunctionOf(current);
  }

  // The latest entry at or before an offset.
  ghost predicate LatestUpTo(es: seq<Entry>, at: nat, e: Entry) {
    e in es && e.start <= at && forall x :: x in es && x.start <= at ==> x == e || Earlier(x, e)
  }

  lemma {:induction false} ScanFindsLatest(es: seq<Entry>, at: nat)
    requires InOrder(es)
    ensures LastUpTo(es, at).None? <==> forall x :: x in es ==> x.start > at
    ensures LastUpTo(es, at).Some? ==> LatestUpTo(es, at, LastUpTo(es, at).value)
  {
    if es != [] {
      var rest := es[1..];
      assert es == [es[0]] + rest;
      assert forall x :: x in rest ==> Earlier(es[0], x);
      ScanFindsLatest(rest, at);
    }
  }

  // ---- The region of a declaration ----

  // The start of the next declaration, or the greatest offset there is.
  function NextStart(es: seq<Entry>, start: nat): nat {
    if es == [] then LAST_OFFSET else if es[0].start > start then es[0].start else NextStart(es[1..], start)
  }

  datatype Region = Region(start: nat, end: nat)

  function FunctionRegion(symbols: seq<Symbol>, file: nat, id: nat): Option<Region>
    requires id < |symbols|
  {
    if !DeclaredIn(symbols, file, id) then None
    else
      var start := symbols[id].declaration.value.start;
      Some(Region(start, NextStart(InSourceOrder(symbols, file), start)))
  }

  lemma {:induction false} NextStartIsNext(es: seq<Entry>, start: nat)
    requires InOrder(es)
    ensures forall x :: x in es && x.start > start ==> NextStart(es, start) <= x.start
    ensures NextStart(es, start) == LAST_OFFSET || (
      exists x :: x in es && x.start > start && x.start == NextStart(es, start))
    ensures (forall x :: x in es ==> x.start <= start) ==> NextStart(es, start) == LAST_OFFSET
  {
    if es != [] {
      var rest := es[1..];
      assert es == [es[0]] + rest;
      assert forall x :: x in rest ==> Earlier(es[0], x);
      NextStartIsNext(rest, start);
    }
  }

  predicate Contains(region: Region, at: nat) { region.start <= at < region.end }

  // ---- The two readings ----

  // Offsets are 32 bits wide.
  ghost predicate OffsetsFit(symbols: seq<Symbol>) {
    forall i :: 0 <= i < |symbols| && symbols[i].declaration.Some? ==> symbols[i].declaration.value.start <= LAST_OFFSET
  }

  ghost predicate DistinctStarts(symbols: seq<Symbol>, file: nat) {
    forall i: nat, j: nat :: Listed(symbols, file, i) && Listed(symbols, file, j) && i != j ==>
      symbols[i].declaration.value.start != symbols[j].declaration.value.start
  }

  // No declaration that starts where this one does comes after it in the table.
  ghost predicate LastAtItsStart(symbols: seq<Symbol>, file: nat, f: nat)
    requires Listed(symbols, file, f)
  {
    forall i: nat :: Listed(symbols, file, i) ==>
      symbols[i].declaration.value.start == symbols[f].declaration.value.start ==> i <= f
  }

  lemma ScanFindsEntry(symbols: seq<Symbol>, file: nat, at: nat, f: nat)
    requires Listed(symbols, file, f)
    ensures LastUpTo(InSourceOrder(symbols, file), at) == Some(EntryOf(symbols, file, f))
      <==> LatestUpTo(InSourceOrder(symbols, file), at, EntryOf(symbols, file, f))
  {
    hide Sorted, LastUpTo;
    var es := InSourceOrder(symbols, file);
    SourceOrder(symbols, file);
    ScanFindsLatest(es, at);
    var e := EntryOf(symbols, file, f);
    if LatestUpTo(es, at, e) { assert LastUpTo(es, at).Some?; }
  }

  // A declaration is the latest at or before an offset of the text exactly when its
  // region holds the offset and no later one shares its start.
  lemma LatestIsInRegion(symbols: seq<Symbol>, file: nat, at: nat, f: nat)
    requires OffsetsFit(symbols) && at < LAST_OFFSET && Listed(symbols, file, f)
    ensures LatestUpTo(InSourceOrder(symbols, file), at, EntryOf(symbols, file, f))
      <==> Contains(FunctionRegion(symbols, file, f).value, at) && LastAtItsStart(symbols, file, f)
  {
    hide InSourceOrder;
    var es, e := InSourceOrder(symbols, file), EntryOf(symbols, file, f);
    SourceOrder(symbols, file);
    NextStartIsNext(es, e.start);
    if LatestUpTo(es, at, e) {
      forall i: nat | Listed(symbols, file, i) && symbols[i].declaration.value.start == e.start ensures i <= f {
        assert EntryOf(symbols, file, i) in es;
      }
    }
    if Contains(FunctionRegion(symbols, file, f).value, at) && LastAtItsStart(symbols, file, f) {
      forall x | x in es && x.start <= at ensures x == e || Earlier(x, e) {
        assert x.start <= e.start;
        assert x.start == e.start ==> x.id <= f;
      }
    }
  }

  // No declaration comes after this one.
  ghost predicate LastDeclared(symbols: seq<Symbol>, file: nat, f: nat) {
    && Listed(symbols, file, f) && LastAtItsStart(symbols, file, f)
    && forall i: nat :: Listed(symbols, file, i) ==>
      symbols[i].declaration.value.start <= symbols[f].declaration.value.start
  }

  ghost predicate LastFunction(symbols: seq<Symbol>, file: nat, f: nat) {
    LastDeclared(symbols, file, f) && symbols[f].kind.Function?
  }

  lemma LatestOfAll(symbols: seq<Symbol>, file: nat, f: nat)
    requires OffsetsFit(symbols) && Listed(symbols, file, f)
    ensures LatestUpTo(InSourceOrder(symbols, file), LAST_OFFSET, EntryOf(symbols, file, f))
      <==> LastDeclared(symbols, file, f)
  {
    hide InSourceOrder;
    var es, e := InSourceOrder(symbols, file), EntryOf(symbols, file, f);
    SourceOrder(symbols, file);
    forall i: nat | Listed(symbols, file, i) ensures EntryOf(symbols, file, i) in es {}
    if LastDeclared(symbols, file, f) {
      forall x | x in es ensures x == e || Earlier(x, e) {
        assert x.start <= e.start;
        assert x.start == e.start ==> x.id <= f;
      }
    }
  }

  // What the scan finds, in terms of the table.
  lemma ScanFindsFunction(symbols: seq<Symbol>, file: nat, at: nat, f: nat)
    ensures EnclosingFunction(symbols, file, at) == Some(f) <==> (
      && Listed(symbols, file, f) && symbols[f].kind.Function?
      && LatestUpTo(InSourceOrder(symbols, file), at, EntryOf(symbols, file, f)))
  {
    hide InSourceOrder, LastUpTo;
    var es := InSourceOrder(symbols, file);
    SourceOrder(symbols, file);
    ScanFindsLatest(es, at);
    if Listed(symbols, file, f) { ScanFindsEntry(symbols, file, at, f); }
    if EnclosingFunction(symbols, file, at) == Some(f) {
      assert LastUpTo(es, at).value in es;
      assert LastUpTo(es, at).value == EntryOf(symbols, file, f);
    }
  }

  // The other reading: `f` is a function whose region holds the offset, and nothing
  // later shares its start.
  ghost predicate InRegionOf(symbols: seq<Symbol>, file: nat, at: nat, f: nat) {
    && Listed(symbols, file, f) && symbols[f].kind.Function?
    && Contains(FunctionRegion(symbols, file, f).value, at) && LastAtItsStart(symbols, file, f)
  }

  ghost predicate ReadAlike(symbols: seq<Symbol>, file: nat, at: nat, f: nat) {
    EnclosingFunction(symbols, file, at) == Some(f) <==> InRegionOf(symbols, file, at, f)
  }

  // No region reaches the greatest offset.
  lemma NoRegionHoldsTheEnd(symbols: seq<Symbol>, file: nat, f: nat)
    requires OffsetsFit(symbols) && Listed(symbols, file, f)
    ensures !Contains(FunctionRegion(symbols, file, f).value, LAST_OFFSET)
  {
    hide InSourceOrder;
    var es, e := InSourceOrder(symbols, file), EntryOf(symbols, file, f);
    SourceOrder(symbols, file);
    NextStartIsNext(es, e.start);
  }

  // The scan and the regions agree about a function at every offset but the greatest,
  // and there too unless nothing is declared after it.
  lemma TwoReadingsAgree(symbols: seq<Symbol>, file: nat, at: nat, f: nat)
    requires OffsetsFit(symbols) && at <= LAST_OFFSET
    ensures ReadAlike(symbols, file, at, f) <==>
      !(at == LAST_OFFSET && LastFunction(symbols, file, f))
  {
    hide InSourceOrder, EnclosingFunction, LatestUpTo, Contains, LastAtItsStart;
    ScanFindsFunction(symbols, file, at, f);
    if Listed(symbols, file, f) {
      if at < LAST_OFFSET {
        LatestIsInRegion(symbols, file, at, f);
      } else {
        LatestOfAll(symbols, file, f);
        NoRegionHoldsTheEnd(symbols, file, f);
      }
    }
  }

  // Where no two declarations share a start, regions alone tell.
  lemma DistinctStartsAgree(symbols: seq<Symbol>, file: nat, at: nat, f: nat)
    requires OffsetsFit(symbols) && at <= LAST_OFFSET && DistinctStarts(symbols, file)
    ensures (EnclosingFunction(symbols, file, at) == Some(f) <==> (
        && Listed(symbols, file, f) && symbols[f].kind.Function?
        && Contains(FunctionRegion(symbols, file, f).value, at)))
      <==> !(at == LAST_OFFSET && LastFunction(symbols, file, f))
  {
    hide InSourceOrder, EnclosingFunction, Contains, LastDeclared;
    TwoReadingsAgree(symbols, file, at, f);
    assert Listed(symbols, file, f) ==> LastAtItsStart(symbols, file, f);
  }

  // Two regions of a file are the same or share no offset.
  lemma RegionsAreDisjoint(symbols: seq<Symbol>, file: nat, f: nat, g: nat, at: nat)
    requires Listed(symbols, file, f) && Listed(symbols, file, g)
    requires Contains(FunctionRegion(symbols, file, f).value, at) &&
      Contains(FunctionRegion(symbols, file, g).value, at)
    ensures FunctionRegion(symbols, file, f) == FunctionRegion(symbols, file, g)
  {
    hide InSourceOrder;
    var es, e, d := InSourceOrder(symbols, file), EntryOf(symbols, file, f), EntryOf(symbols, file, g);
    SourceOrder(symbols, file);
    NextStartIsNext(es, e.start);
    NextStartIsNext(es, d.start);
    assert e in es && d in es;
  }

  // The last function's region goes on to the greatest 32-bit offset.
  lemma LastRegionGoesOn(symbols: seq<Symbol>, file: nat, f: nat)
    requires LastDeclared(symbols, file, f)
    ensures FunctionRegion(symbols, file, f) == Some(Region(symbols[f].declaration.value.start, 0xFFFF_FFFF))
  {
    hide InSourceOrder;
    SourceOrder(symbols, file);
    NextStartIsNext(InSourceOrder(symbols, file), symbols[f].declaration.value.start);
  }

  // At the greatest offset the readings agree about every function exactly when what
  // is declared last is no function; otherwise the scan answers it although no region
  // holds the offset.
  lemma GreatestOffsetDisagrees(symbols: seq<Symbol>, file: nat)
    requires OffsetsFit(symbols)
    ensures (forall f: nat :: ReadAlike(symbols, file, LAST_OFFSET, f)) <==>
      !exists f: nat :: LastFunction(symbols, file, f)
    ensures forall f: nat :: LastFunction(symbols, file, f) ==>
      && EnclosingFunction(symbols, file, LAST_OFFSET) == Some(f)
      && forall g: nat :: !InRegionOf(symbols, file, LAST_OFFSET, g)
  {
    hide EnclosingFunction, LastFunction, ReadAlike, Contains;
    forall f: nat ensures ReadAlike(symbols, file, LAST_OFFSET, f) <==>
      !LastFunction(symbols, file, f)
    {
      TwoReadingsAgree(symbols, file, LAST_OFFSET, f);
    }
    forall g: nat ensures !InRegionOf(symbols, file, LAST_OFFSET, g) {
      if Listed(symbols, file, g) { NoRegionHoldsTheEnd(symbols, file, g); }
    }
    forall f: nat | LastFunction(symbols, file, f)
      ensures EnclosingFunction(symbols, file, LAST_OFFSET) == Some(f)
    {
      LastIsFound(symbols, file, f);
    }
  }

  lemma LastIsFound(symbols: seq<Symbol>, file: nat, f: nat)
    requires OffsetsFit(symbols) && LastFunction(symbols, file, f)
    ensures EnclosingFunction(symbols, file, LAST_OFFSET) == Some(f)
  {
    hide InSourceOrder, EnclosingFunction, LatestUpTo;
    ScanFindsFunction(symbols, file, LAST_OFFSET, f);
    LatestOfAll(symbols, file, f);
  }

  // ---- Which names are visible ----

  // Whether a parameter or local counts as visible at an offset.
  function Belongs(symbols: seq<Symbol>, file: nat, id: nat, enclosing: Option<nat>, at: nat): bool
    requires id < |symbols| && (enclosing.Some? ==> enclosing.value < |symbols|)
  {
    if enclosing.None? || !DeclaredIn(symbols, file, id) then false
    else
      match FunctionRegion(symbols, file, enclosing.value)
      case None => false
      case Some(region) =>
        var start := symbols[id].declaration.value.start;
        if !Contains(region, start) then false
        else
          match symbols[id].kind
          case Param => true
          case Local => start <= at
          case _ => false
  }

  lemma EnclosingIsSymbol(symbols: seq<Symbol>, file: nat, at: nat)
    ensures var f := EnclosingFunction(symbols, file, at); f.Some? ==> Listed(symbols, file, f.value)
  {
    hide InSourceOrder, LastUpTo;
    SourceOrder(symbols, file);
    ScanFindsLatest(InSourceOrder(symbols, file), at);
  }

  function Visible(symbols: seq<Symbol>, file: nat, at: nat, id: nat): bool
    requires id < |symbols|
  {
    match symbols[id].kind
    case Param | Local =>
      EnclosingIsSymbol(symbols, file, at);
      Belongs(symbols, file, id, EnclosingFunction(symbols, file, at), at)
    case Spec | Other => false
    case _ => true
  }

  method VisibleSymbols(symbols: seq<Symbol>, file: nat, at: nat) returns (ids: seq<nat>)
    ensures forall id: nat :: id in ids <==> id < |symbols| && Visible(symbols, file, at, id)
    ensures forall i, j :: 0 <= i < j < |ids| ==> ids[i] < ids[j]
  {
    hide EnclosingFunction, Belongs;
    var enclosing := FindEnclosingFunction(symbols, file, at);
    EnclosingIsSymbol(symbols, file, at);
    ids := [];
    for id := 0 to |symbols|
      invariant forall k: nat :: k in ids <==> k < id && Visible(symbols, file, at, k)
      invariant forall i, j :: 0 <= i < j < |ids| ==> ids[i] < ids[j]
      invariant forall i :: 0 <= i < |ids| ==> ids[i] < id
    {
      var shown := false;
      match symbols[id].kind {
        case Function | Struct | Enum | Interface | Const => shown := true;
        case Param | Local => shown := Belongs(symbols, file, id, enclosing, at);
        case _ =>
      }
      if shown { ids := ids + [id]; }
    }
  }

  // Items are visible everywhere, specs and unnamed kinds nowhere; and it is items and
  // specs whose starts end a region.
  lemma KindsAre(symbols: seq<Symbol>, file: nat, at: nat, id: nat)
    requires id < |symbols|
    ensures var kind := symbols[id].kind;
      && (kind in {Function, Struct, Enum, Interface, Const} ==> Visible(symbols, file, at, id))
      && (kind in {Spec, Other} ==> !Visible(symbols, file, at, id))
      && (ModuleLevel(kind) <==> kind !in {Param, Local, Other})
  {}

  // A parameter or local is visible exactly where the scan finds the function it is
  // itself declared in; a local only from its declaration on.
  lemma VisibleExactly(symbols: seq<Symbol>, file: nat, at: nat, id: nat)
    requires OffsetsFit(symbols) && at <= LAST_OFFSET && DeclaredIn(symbols, file, id)
    requires symbols[id].kind.Param? || symbols[id].kind.Local?
    requires symbols[id].declaration.value.start < LAST_OFFSET
    ensures var f, start := EnclosingFunction(symbols, file, at), symbols[id].declaration.value.start;
      Visible(symbols, file, at, id) <==>
      f.Some? && EnclosingFunction(symbols, file, start) == f && (symbols[id].kind.Local? ==> start <= at)
  {
    hide InSourceOrder, EnclosingFunction, Contains, FunctionRegion, LastAtItsStart;
    var start := symbols[id].declaration.value.start;
    EnclosingIsSymbol(symbols, file, at);
    var f := EnclosingFunction(symbols, file, at);
    if f.Some? {
      TwoReadingsAgree(symbols, file, at, f.value);
      TwoReadingsAgree(symbols, file, start, f.value);
      HasRegion(symbols, file, f.value);
    }
  }

  lemma HasRegion(symbols: seq<Symbol>, file: nat, f: nat)
    requires f < |symbols|
    ensures FunctionRegion(symbols, file, f).Some? <==> DeclaredIn(symbols, file, f)
  {}

  // Moving the cursor on within a function hides nothing.
  lemma VisibilityGrows(symbols: seq<Symbol>, file: nat, at: nat, later: nat, id: nat)
    requires at <= later && id < |symbols|
    requires EnclosingFunction(symbols, file, at) == EnclosingFunction(symbols, file, later)
    ensures Visible(symbols, file, at, id) ==> Visible(symbols, file, later, id)
  {
    hide InSourceOrder, EnclosingFunction, Contains, FunctionRegion;
  }
}
