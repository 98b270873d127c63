// Driving a session through its life: any edits, old files and new, any queries,
// any cancellations.

module SessionReplay {
  import opened QueryModel
  import opened FrontEnd
  import opened SessionHost
  import opened SessionClaims
  import opened SessionTruth
  import opened EngineStore
  import opened EngineRun
  import EngineLives
  import opened IncrementalSessions
  import opened SessionMinimality

  datatype Change = Change(name: string, text: string)

  datatype Op =
    | Edit(changes: seq<Change>)
    | Ask(keys: seq<Key>)
    | RequestCancellation
    | ClearCancellation
    | RequestLater(checks: nat)

  ghost function Now(session: IncrementalSession): Moment
    reads session, session.engine
  {
    Moment(session.Texts(), session.engine.Now())
  }

  // ---- Edits ----

  datatype Listing = Listing(names: seq<string>, texts: seq<string>)

  function FileOf(names: seq<string>, name: string): nat {
    if names == [] || names[0] == name then 0 else 1 + FileOf(names[1..], name)
  }

  // A file keeps its place; a new one comes last.
  function WithChange(l: Listing, c: Change): Listing {
    if c.name in l.names && FileOf(l.names, c.name) < |l.texts| then
      l.(texts := l.texts[FileOf(l.names, c.name) := c.text])
    else Listing(l.names + [c.name], l.texts + [c.text])
  }

  function WithChanges(l: Listing, changes: seq<Change>): Listing {
    if changes == [] then l
    else WithChange(WithChanges(l, changes[..|changes| - 1]), changes[|changes| - 1])
  }

  ghost function ListingOf(session: IncrementalSession): Listing
    reads session
  {
    Listing(session.names, session.Texts())
  }

  lemma {:induction false} FileIsFound(names: seq<string>, file: nat)
    requires file < |names| && forall i, j :: 0 <= i < j < |names| ==> names[i] != names[j]
    ensures FileOf(names, names[file]) == file
  {
    if file > 0 { FileIsFound(names[1..], file - 1); }
  }

  lemma {:induction false} NameIsFound(names: seq<string>, name: string)
    requires name in names
    ensures FileOf(names, name) < |names|
  {
    if names[0] != name { NameIsFound(names[1..], name); }
  }

  lemma {:induction false} NamesGrow(l: Listing, changes: seq<Change>, i: nat)
    requires i <= |changes|
    ensures |WithChanges(l, changes[..i]).names| <= |WithChanges(l, changes).names|
    decreases |changes|
  {
    if i < |changes| {
      var init := changes[..|changes| - 1];
      NamesGrow(l, init, i);
      assert init[..i] == changes[..i];
    } else {
      assert changes[..i] == changes;
    }
  }

  // No change names the file.
  predicate Spares(names: seq<string>, changes: seq<Change>, file: nat) {
    file >= |names| || forall i :: 0 <= i < |changes| ==> changes[i].name != names[file]
  }

  // A step of an edit: every file is as it was or was set, and those spared are as
  // they were.
  ghost predicate EditedTo(m0: Moment, m1: Moment, names: seq<string>, changes: seq<Change>) {
    && (m1 == m0 || FilesSet(m0, m1))
    && m0.store.revision <= m1.store.revision
    && m1.store.memos == m0.store.memos
    && forall file: nat :: file < |m0.texts| && Spares(names, changes, file) ==> AsItWas(m0, m1, file)
  }

  ghost predicate AsItWas(m0: Moment, m1: Moment, file: nat) {
    && Stamp(m1.store, SourceKey(file)) == Stamp(m0.store, SourceKey(file))
    && LatestText(m1.texts, file) == LatestText(m0.texts, file)
  }

  lemma EditsCompose(m0: Moment, m1: Moment, m2: Moment, names0: seq<string>, names1: seq<string>,
                     changes: seq<Change>, c: Change)
    requires Bounded(m0.store) && Bounded(m1.store)
    requires EditedTo(m0, m1, names0, changes) && EditedTo(m1, m2, names1, [c])
    requires names0 <= names1 && |m0.texts| == |names0| && |m0.texts| <= |m1.texts|
    ensures EditedTo(m0, m2, names0, changes + [c])
  {
    forall file: nat | m1 != m0 && m2 != m1 ensures TouchFits(m0, m2, file) {
      assert TouchFits(m0, m1, file) && TouchFits(m1, m2, file);
    }
    forall file: nat | file < |m0.texts| && Spares(names0, changes + [c], file) ensures AsItWas(m0, m2, file) {
      assert (changes + [c])[|changes|] == c;
      assert forall i :: 0 <= i < |changes| ==> (changes + [c])[i] == changes[i];
      assert Spares(names0, changes, file) && Spares(names1, [c], file);
      assert AsItWas(m0, m1, file) && AsItWas(m1, m2, file);
    }
  }

  method SetOne(session: IncrementalSession, c: Change)
    requires session.Valid() && c.text in session.world.universe
    requires |WithChange(ListingOf(session), c).names| <= MAX_FILES
    modifies session, session.engine
    ensures session.Valid() && ListingOf(session) == WithChange(old(ListingOf(session)), c)
    ensures EditedTo(old(Now(session)), Now(session), old(session.names), [c])
    ensures old(session.names) <= session.names && |session.names| <= |old(session.names)| + 1
    ensures session.engine.cancelled == old(session.engine.cancelled)
    ensures session.engine.arrival == old(session.engine.arrival)
    ensures session.engine.revision > old(session.engine.revision)
  {
    hide Grounded, AllWired;
    if c.name in session.names { NameIsFound(session.names, c.name); }
    ghost var m0, names := Now(session), session.names;
    var file := session.SetFile(c.name, c.text);
    FileIsFound(session.names, file);
    ghost var m1 := Now(session);
    assert m1.texts == if c.name in names then m0.texts[file := c.text] else m0.texts + [c.text];
    forall f: nat ensures TouchFits(m0, m1, f) && (f != file ==> AsItWas(m0, m1, f) || f >= |m0.texts|) {
      assert SourceKey(f) !in m0.store.memos;
    }
    assert [c][0] == c;
  }

  method SetAll(session: IncrementalSession, changes: seq<Change>)
    requires session.Valid() && |WithChanges(ListingOf(session), changes).names| <= MAX_FILES
    requires forall i :: 0 <= i < |changes| ==> changes[i].text in session.world.universe
    modifies session, session.engine
    ensures session.Valid() && ListingOf(session) == WithChanges(old(ListingOf(session)), changes)
    ensures EditedTo(old(Now(session)), Now(session), old(session.names), changes)
    ensures old(session.names) <= session.names && |session.names| <= |old(session.names)| + |changes|
    ensures session.engine.cancelled == old(session.engine.cancelled)
    ensures session.engine.arrival == old(session.engine.arrival)
    ensures changes != [] ==> session.engine.revision > old(session.engine.revision)
  {
    hide Grounded, AllWired, Inv, EditedTo, WithChange, NoCollision, WellResolved, Describes;
    ghost var m0, names0 := Now(session), session.names;
    NothingEdited(m0, names0);
    for i := 0 to |changes|
      invariant session.Valid() && names0 <= session.names && |session.names| <= |names0| + i
      invariant ListingOf(session) == WithChanges(old(ListingOf(session)), changes[..i])
      invariant EditedTo(m0, Now(session), names0, changes[..i])
      invariant session.engine.cancelled == old(session.engine.cancelled)
      invariant session.engine.arrival == old(session.engine.arrival)
      invariant session.engine.revision >= old(session.engine.revision)
      invariant i > 0 ==> session.engine.revision > old(session.engine.revision)
    {
      ghost var m1, names1 := Now(session), session.names;
      NamesGrow(old(ListingOf(session)), changes, i + 1);
      assert changes[..i + 1][..i] == changes[..i];
      SetOne(session, changes[i]);
      ValidIsBounded(session.world, m0);
      ValidIsBounded(session.world, m1);
      EditsCompose(m0, m1, Now(session), names0, names1, changes[..i], changes[i]);
      assert changes[..i + 1] == changes[..i] + [changes[i]];
    }
    assert changes[..|changes|] == changes;
  }

  lemma NothingEdited(m: Moment, names: seq<string>)
    ensures EditedTo(m, m, names, [])
  {}

  lemma ValidIsBounded(w: World, m: Moment)
    requires Inv(ClaimsNow(w, m.texts), m.store)
    ensures Bounded(m.store)
  {}

  // ---- Queries ----

  // The key was answered in this revision, with this value.
  ghost predicate Holds(m: Moment, key: Key, v: Value) {
    UpToDate(m, key) && m.store.memos[key].value == v
  }

  ghost predicate AllHold(m: Moment, keys: seq<Key>, answers: seq<Result<Value>>) {
    && |answers| == |keys|
    && forall i :: 0 <= i < |keys| && answers[i].Ok? ==> Holds(m, keys[i], answers[i].value)
  }

  lemma AnswersStay(w: World, texts: seq<string>, m0: Moment, m1: Moment, keys: seq<Key>, answers: seq<Result<Value>>)
    requires AllHold(m0, keys, answers) && Answered(w, texts, m0.store, m1.store)
    ensures AllHold(m1, keys, answers)
  {
    forall i | 0 <= i < |keys| && answers[i].Ok? ensures Holds(m1, keys[i], answers[i].value) {
      assert Holds(m0, keys[i], answers[i].value);
      ConfirmedStays(Rank, m0.store, m1.store, 6, keys[i]);
    }
  }

  lemma NothingAsked(w: World, texts: seq<string>, s: Store<Value>)
    ensures Answered(w, texts, s, s)
  {
    EvolvesRefl(Rank, s, 6);
  }

  predicate AllOk(answers: seq<Result<Value>>) { forall i :: 0 <= i < |answers| ==> answers[i].Ok? }

  // Ask any queries of a session, at one revision. Only a cancellation keeps one
  // from being answered.
  method AskAll(session: IncrementalSession, keys: seq<Key>) returns (answers: seq<Result<Value>>)
    requires session.Valid() && forall i :: 0 <= i < |keys| ==> 0 < Rank(keys[i])
    modifies session, session.engine
    ensures session.Valid() && ListingOf(session) == old(ListingOf(session))
    ensures Answered(session.world, session.Texts(), old(session.engine.Now()), session.engine.Now())
    ensures AllHold(Now(session), keys, answers)
    ensures old(session.engine.Quiet()) ==> session.engine.Quiet() && AllOk(answers)
  {
    hide Answered, Serves, Inv, AllWired, Grounded, AllHold;
    ghost var w, texts, s0 := session.world, session.Texts(), session.engine.Now();
    NothingAsked(w, texts, s0);
    answers := [];
    NothingHeld(Now(session));
    for i := 0 to |keys|
      invariant session.Valid() && ListingOf(session) == old(ListingOf(session))
      invariant Answered(w, texts, s0, session.engine.Now())
      invariant |answers| == i && AllHold(Now(session), keys[..i], answers)
      invariant old(session.engine.Quiet()) ==> session.engine.Quiet() && forall j :: 0 <= j < i ==> answers[j].Ok?
    {
      ghost var m1 := Now(session);
      var r := session.Ask(keys[i]);
      OneQueryIsAnswered(w, texts, m1.store, session.engine.Now(), keys[i]);
      ValidIsBounded(w, m1);
      MoreAreAnswered(w, texts, s0, m1.store, session.engine.Now());
      AnswersStay(w, texts, m1, Now(session), keys[..i], answers);
      OneMoreHolds(Now(session), keys, i, answers, r);
      answers := answers + [r];
    }
    assert keys[..|keys|] == keys;
  }

  lemma NothingHeld(m: Moment)
    ensures forall keys :: keys == [] ==> AllHold(m, keys, [])
  {}

  lemma OneMoreHolds(m: Moment, keys: seq<Key>, i: nat, answers: seq<Result<Value>>, r: Result<Value>)
    requires i < |keys| && AllHold(m, keys[..i], answers) && (r.Ok? ==> Holds(m, keys[i], r.value))
    ensures AllHold(m, keys[..i + 1], answers + [r])
  {
    forall j | 0 <= j < i + 1 && (answers + [r])[j].Ok? ensures Holds(m, keys[..i + 1][j], (answers + [r])[j].value) {
      assert j < i ==> Holds(m, keys[..i][j], answers[j].value);
    }
  }

  // ---- Any life ----

  function EditsOf(op: Op): seq<Change> { if op.Edit? then op.changes else [] }

  function ListingAfter(l: Listing, ops: seq<Op>): Listing {
    if ops == [] then l else WithChanges(ListingAfter(l, ops[..|ops| - 1]), EditsOf(ops[|ops| - 1]))
  }

  ghost predicate Legal(w: World, op: Op) {
    && (op.Edit? ==> forall i :: 0 <= i < |op.changes| ==> op.changes[i].text in w.universe)
    && (op.Ask? ==> forall i :: 0 <= i < |op.keys| ==> 0 < Rank(op.keys[i]))
  }

  // One operation takes one step, says what it answered, and spares the files it
  // does not name.
  ghost predicate Does(w: World, op: Op, names: seq<string>, m0: Moment, m1: Moment, answers: seq<Result<Value>>) {
    && (if op.Edit? then m1 == m0 || FilesSet(m0, m1)
        else m1.texts == m0.texts && Answered(w, m0.texts, m0.store, m1.store))
    && (op.Ask? ==> AllHold(m1, op.keys, answers))
    && forall file: nat :: file < |m0.texts| && Spares(names, EditsOf(op), file) ==> AsItWas(m0, m1, file)
  }

  method Perform(session: IncrementalSession, op: Op) returns (answers: seq<Result<Value>>)
    requires session.Valid() && Legal(session.world, op)
    requires |WithChanges(ListingOf(session), EditsOf(op)).names| <= MAX_FILES
    modifies session, session.engine
    ensures session.Valid() && ListingOf(session) == WithChanges(old(ListingOf(session)), EditsOf(op))
    ensures Does(session.world, op, old(session.names), old(Now(session)), Now(session), answers)
    ensures old(session.engine.Quiet()) && (op.Edit? || op.Ask?) ==> session.engine.Quiet() && AllOk(answers)
  {
    hide Answered, Inv, AllWired, Grounded, AllHold, EditedTo, FilesSet;
    ghost var m0, names, w := Now(session), session.names, session.world;
    answers := [];
    NothingAsked(w, m0.texts, m0.store);
    match op {
      case Edit(changes) =>
        SetAll(session, changes);
        EditDoes(w, op, names, m0, Now(session));
      case Ask(keys) =>
        answers := AskAll(session, keys);
        ValidSorted(w, m0);
        AskDoes(w, op, names, m0, Now(session), answers);
      case RequestCancellation => session.engine.RequestCancellation();
      case ClearCancellation => session.engine.ClearCancellation();
      case RequestLater(checks) => session.engine.RequestLater(checks);
    }
  }

  lemma EditDoes(w: World, op: Op, names: seq<string>, m0: Moment, m1: Moment)
    requires op.Edit? && EditedTo(m0, m1, names, op.changes)
    ensures Does(w, op, names, m0, m1, [])
  {}

  lemma ValidSorted(w: World, m: Moment)
    requires Inv(ClaimsNow(w, m.texts), m.store)
    ensures Sorted(Rank, m.store)
  {}

  lemma AskDoes(w: World, op: Op, names: seq<string>, m0: Moment, m1: Moment, answers: seq<Result<Value>>)
    requires op.Ask? && m1.texts == m0.texts && Answered(w, m0.texts, m0.store, m1.store)
    requires AllHold(m1, op.keys, answers)
    requires Sorted(Rank, m0.store)
    ensures Does(w, op, names, m0, m1, answers)
  {
    forall file: nat ensures AsItWas(m0, m1, file) {
      var d := SourceKey(file);
      assert Ran(m0.store, m1.store, d) ==> 0 < Rank(d);
      assert d in m1.store.memos ==>
        Stepped(MemoAt(m0.store, d), m1.store.memos[d], Ran(m0.store, m1.store, d), m1.store.revision);
    }
  }

  // What the `n`th operation did, from a session that listed `l` before them all.
  ghost predicate DoesAt(w: World, l: Listing, ops: seq<Op>, run: seq<Moment>, answers: seq<seq<Result<Value>>>, n: nat)
    requires n < |ops| && n < |answers| && n + 1 < |run|
  {
    && Does(w, ops[n], ListingAfter(l, ops[..n]).names, run[n], run[n + 1], answers[n])
    && run[n + 1].texts == WithChanges(ListingAfter(l, ops[..n]), EditsOf(ops[n])).texts
  }

  predicate Undisturbed(ops: seq<Op>) { forall n :: 0 <= n < |ops| ==> ops[n].Edit? || ops[n].Ask? }

  predicate AllAnswered(answers: seq<seq<Result<Value>>>) { forall n :: 0 <= n < |answers| ==> AllOk(answers[n]) }

  // Drive a valid session through any operations: the moments it passes through are
  // a life of the session, to which everything proved of such lives applies.
  method Replay(session: IncrementalSession, ops: seq<Op>)
      returns (answers: seq<seq<Result<Value>>>, ghost run: seq<Moment>)
    requires session.Valid() && forall n :: 0 <= n < |ops| ==> Legal(session.world, ops[n])
    requires |ListingAfter(ListingOf(session), ops).names| <= MAX_FILES
    modifies session, session.engine
    ensures session.Valid() && ListingOf(session) == ListingAfter(old(ListingOf(session)), ops)
    ensures |answers| == |ops| && |run| == |ops| + 1 && SessionLife(session.world, run)
    ensures run[0] == old(Now(session)) && run[|ops|] == Now(session)
    ensures forall n :: 0 <= n < |ops| ==> DoesAt(session.world, old(ListingOf(session)), ops, run, answers, n)
    ensures old(session.engine.Quiet()) && Undisturbed(ops) ==> session.engine.Quiet() && AllAnswered(answers)
  {
    hide Grounded, Inv, AllWired, DoesAt, Does, SessionLife, Legal, WithChanges, AllOk, NoCollision, WellResolved,
         Describes, Answered, FilesSet;
    ghost var w, l0 := session.world, ListingOf(session);
    answers, run := [], [Now(session)];
    LifeStarts(w, Now(session));
    for n := 0 to |ops|
      invariant session.Valid() && ListingOf(session) == ListingAfter(l0, ops[..n])
      invariant |answers| == n && |run| == n + 1 && SessionLife(w, run)
      invariant run[0] == old(Now(session)) && run[n] == Now(session)
      invariant old(session.engine.Quiet()) && Undisturbed(ops[..n]) ==> session.engine.Quiet() && AllAnswered(answers)
      invariant forall m :: 0 <= m < n ==> DoesAt(w, l0, ops, run, answers, m)
    {
      ghost var run0, answers0 := run, answers;
      assert ops[..n + 1][..n] == ops[..n] && ops[..n + 1][n] == ops[n];
      ListingsGrow(l0, ops, n + 1);
      var a := Perform(session, ops[n]);
      LifeGoesOn(w, run, ops[n], ListingAfter(l0, ops[..n]).names, Now(session), a);
      answers, run := answers + [a], run + [Now(session)];
      DoneGoesOn(w, l0, ops, run0, answers0, Now(session), a);
    }
    assert ops[..|ops|] == ops;
  }

  lemma DoneGoesOn(w: World, l: Listing, ops: seq<Op>, run: seq<Moment>, answers: seq<seq<Result<Value>>>, m: Moment,
                   a: seq<Result<Value>>)
    requires |run| == |answers| + 1 && |answers| < |ops|
    requires forall n :: 0 <= n < |answers| ==> DoesAt(w, l, ops, run, answers, n)
    requires var n := |answers|; var before := ListingAfter(l, ops[..n]);
      Does(w, ops[n], before.names, run[n], m, a) && m.texts == WithChanges(before, EditsOf(ops[n])).texts
    ensures forall n :: 0 <= n < |answers| + 1 ==> DoesAt(w, l, ops, run + [m], answers + [a], n)
  {
    hide Does, WithChanges, ListingAfter;
    forall n | 0 <= n < |answers| + 1 ensures DoesAt(w, l, ops, run + [m], answers + [a], n) {
      assert n < |answers| ==> DoesAt(w, l, ops, run, answers, n);
    }
  }

  lemma {:induction false} ListingsGrow(l: Listing, ops: seq<Op>, n: nat)
    requires n <= |ops|
    ensures |ListingAfter(l, ops[..n]).names| <= |ListingAfter(l, ops).names|
    decreases |ops|
  {
    hide WithChanges;
    if n < |ops| {
      var init := ops[..|ops| - 1];
      ListingsGrow(l, init, n);
      assert init[..n] == ops[..n];
      var last := EditsOf(ops[|ops| - 1]);
      NamesGrow(ListingAfter(l, init), last, 0);
      NoChanges(ListingAfter(l, init));
      assert last[..0] == [];
    } else {
      assert ops[..n] == ops;
    }
  }

  lemma NoChanges(l: Listing)
    ensures WithChanges(l, []) == l
  {}

  lemma LifeStarts(w: World, m: Moment)
    requires Sound(w, m)
    ensures SessionLife(w, [m])
  {}

  lemma LifeGoesOn(w: World, run: seq<Moment>, op: Op, names: seq<string>, m: Moment, answers: seq<Result<Value>>)
    requires SessionLife(w, run) && run != [] && Sound(w, m)
    requires Does(w, op, names, run[|run| - 1], m, answers)
    ensures SessionLife(w, run + [m])
  {
    hide Sound, FilesSet, Answered;
    NothingAsked(w, run[|run| - 1].texts, run[|run| - 1].store);
    forall n | 0 <= n < |run| ensures StepAt(w, run + [m], n) {
      assert n < |run| - 1 ==> StepAt(w, run, n);
    }
  }
}
