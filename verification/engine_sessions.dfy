// Whole runs of the engine over a pure host: any interleaving of input edits,
// queries and cancellation requests.

module EngineSessions {
  import opened QueryModel
  import opened EngineStore
  import opened EngineRun
  import opened EngineLives
  import opened QueryEngines

  datatype Op<+V> =
    | Set(key: Key, value: V)
    | Ask(key: Key)
    | RequestCancellation
    | ClearCancellation
    // Another thread's request will land at the `checks`-th look at the flag from now.
    | RequestLater(checks: nat)

  // A pure host: ranked, bounded, and making no claims in place of steps.
  ghost predicate Pure<V(!new)>(h: Host<V>) {
    WellRanked(h) && Runnable(h)
  }

  ghost predicate Legal<V(!new)>(h: Host<V>, op: Op<V>) {
    && (op.Set? ==> h.rank(op.key) == 0)
    && (op.Ask? ==> h.rank(op.key) > 0)
  }

  function Edited<V>(h: Host<V>, key: Key, value: V): Host<V> {
    h.(input := d => if d == key then value else h.input(d))
  }

  // The host after the edits among `ops`.
  function After<V>(h: Host<V>, ops: seq<Op<V>>): Host<V> {
    if ops == [] then h
    else
      var before := After(h, ops[..|ops| - 1]);
      var op := ops[|ops| - 1];
      if op.Set? then Edited(before, op.key, op.value) else before
  }

  // No cancellation request stands or is on its way after `ops`.
  ghost predicate Calm<V>(ops: seq<Op<V>>) {
    ops == [] ||
    match ops[|ops| - 1]
    case RequestCancellation => false
    case RequestLater(_) => false
    case ClearCancellation => forall i :: 0 <= i < |ops| ==> !ops[i].RequestLater?
    case _ => Calm(ops[..|ops| - 1])
  }

  // A right answer of a pure host.
  ghost predicate Correct<V(!new)>(h: Host<V>, ops: seq<Op<V>>, key: Key, answer: Result<V>) {
    Pure(h) && Right(h, ops, key, answer)
  }

  // An answer is right when it is the from-scratch outcome on the inputs of the
  // moment; only a cancellation request excuses it from giving one.
  ghost predicate Right<V(!new)>(h: Host<V>, ops: seq<Op<V>>, key: Key, answer: Result<V>)
    requires WellRanked(h)
  {
    match answer
    case Ok(v) => Eval(h, key) == Value(v)
    case NoText(file) => Eval(h, key) == Error(file)
    case Cancelled => !Calm(ops)
  }

  lemma AfterKeepsProgram<V(!new)>(h: Host<V>, ops: seq<Op<V>>)
    requires Pure(h)
    ensures Pure(After(h, ops))
    ensures After(h, ops).step == h.step && After(h, ops).rank == h.rank && After(h, ops).limit == h.limit
  {}

  lemma {:induction false} RunIsKnown<V(!new)>(h: Host<V>, k: Key, read: seq<V>)
    requires Pure(h)
    ensures !Run(h, k, read).Unknown?
    decreases h.rank(k), h.limit(k) - |read|
  {
    var step := h.step(k, read);
    assert !step.Settled();
    match step {
      case Input(d) => RunIsKnown(h, k, read + [h.input(d)]);
      case Query(d) =>
        RunIsKnown(h, d, []);
        if Eval(h, d).Value? { RunIsKnown(h, k, read + [Eval(h, d).value]); }
      case _ =>
    }
  }

  lemma FreshStoreHolds<V(!new)>(h: Host<V>, s: Store<V>)
    requires s == Store(0, map[], map[], [], map[])
    ensures Inv(h, s)
  {}

  // The key was answered in this revision, with this value.
  predicate Holds<V(==)>(s: Store<V>, key: Key, v: V) {
    key in s.memos && s.memos[key].verifiedAt == s.revision && s.memos[key].value == v
  }

  lemma EditIsAStep<V>(h: Host<V>, s0: Store<V>, s1: Store<V>, key: Key)
    requires Inv(h, s0) && h.rank(key) == 0
    requires s1 == s0.(revision := s0.revision + 1, inputChanged := s0.inputChanged[key := s0.revision + 1])
    ensures Next(h.rank, s0, s1)
  {}

  lemma NothingIsAStep<V>(rank: Key -> nat, s: Store<V>)
    ensures Next(rank, s, s)
  {
    EvolvesRefl(rank, s, 0);
    AskingIsAStep(rank, s, s, 0);
  }

  // One query of a pure host.
  method AskPure<V(==,!new)>(engine: QueryEngine<V>, ghost ops: seq<Op<V>>, key: Key, host: Host<V>)
      returns (r: Result<V>)
    requires Pure(host) && host.rank(key) > 0 && engine.Idle() && Inv(host, engine.Now())
    requires Calm(ops) ==> engine.Quiet()
    modifies engine
    ensures engine.Idle() && Inv(host, engine.Now())
    ensures Correct(host, ops, key, r)
    ensures Next(host.rank, old(engine.Now()), engine.Now())
    ensures r.Ok? ==> Holds(engine.Now(), key, r.value)
    ensures old(engine.arrival) == None ==> engine.arrival == None && engine.cancelled == old(engine.cancelled)
  {
    PureHostDescribesItself(host);
    RunIsKnown(host, key, []);
    r := engine.Query(key, host, host);
    AskingIsAStep(host.rank, old(engine.Now()), engine.Now(), host.rank(key) + 1);
  }

  // The `i`th operation is answered if it asks, and rightly; what is answered is up to
  // date in the state that follows.
  ghost predicate DoneAt<V(!new)>(h: Host<V>, ops: seq<Op<V>>, answers: seq<Option<Result<V>>>,
                                         run: seq<Store<V>>, i: nat)
    requires i < |ops| && i < |answers| && i + 1 < |run|
  {
    && Inv(After(h, ops[..i]), run[i])
    && (answers[i].Some? <==> ops[i].Ask?)
    && (ops[i].Ask? ==> Correct(After(h, ops[..i]), ops[..i], ops[i].key, answers[i].value))
    && (ops[i].Ask? && answers[i].value.Ok? ==> Holds(run[i + 1], ops[i].key, answers[i].value.value))
  }

  // Drive a fresh engine through any sequence of operations: every query that is
  // not cancelled answers exactly what evaluating its key from scratch on the
  // inputs of that moment answers, whatever was cached, abandoned or failed before.
  // `run` are the states the engine passes through.
  method Drive<V(==,!new)>(h: Host<V>, ops: seq<Op<V>>)
      returns (answers: seq<Option<Result<V>>>, ghost run: seq<Store<V>>)
    requires Pure(h) && forall i :: 0 <= i < |ops| ==> Legal(h, ops[i])
    ensures |answers| == |ops| && |run| == |ops| + 1 && Life(h.rank, run)
    ensures forall i :: 0 <= i < |ops| ==> DoneAt(h, ops, answers, run, i)
  {
    hide Inv, Describes, Serves, Pure, Correct, Life, Next, Holds, Calm, Legal, DoneAt;
    var engine := new QueryEngine<V>();
    FreshStoreHolds(h, engine.Now());
    CalmAtFirst<V>();
    var host := h;
    answers, run := [], [engine.Now()];
    LifeStarts(h.rank, engine.Now());
    for i := 0 to |ops|
      invariant fresh(engine) && engine.Idle()
      invariant |answers| == i && host == After(h, ops[..i])
      invariant |run| == i + 1 && run[i] == engine.Now() && Life(h.rank, run)
      invariant Inv(host, engine.Now())
      invariant Calm(ops[..i]) ==> engine.Quiet()
      invariant (forall j :: 0 <= j < i ==> !ops[j].RequestLater?) ==> engine.arrival == None
      invariant forall j :: 0 <= j < i ==> DoneAt(h, ops, answers, run, j)
    {
      ghost var answers0, run0 := answers, run;
      var answer;
      host, answer := Perform(engine, h, ops, i, host);
      LifeGoesOn(h.rank, run, engine.Now());
      answers, run := answers + [answer], run + [engine.Now()];
      DoneGoesOn(h, ops, answers0, run0, answer, engine.Now());
    }
  }

  lemma CalmAtFirst<V>()
    ensures Calm<V>([])
  {}

  lemma DoneGoesOn<V(!new)>(h: Host<V>, ops: seq<Op<V>>, answers: seq<Option<Result<V>>>, run: seq<Store<V>>,
                            answer: Option<Result<V>>, s: Store<V>)
    requires |answers| < |ops| && |run| == |answers| + 1
    requires forall i :: 0 <= i < |answers| ==> DoneAt(h, ops, answers, run, i)
    requires var i := |answers|;
      && Inv(After(h, ops[..i]), run[i])
      && (answer.Some? <==> ops[i].Ask?)
      && (ops[i].Ask? ==> Correct(After(h, ops[..i]), ops[..i], ops[i].key, answer.value))
      && (ops[i].Ask? && answer.value.Ok? ==> Holds(s, ops[i].key, answer.value.value))
    ensures forall i :: 0 <= i < |answers| + 1 ==> DoneAt(h, ops, answers + [answer], run + [s], i)
  {
    hide Inv, Correct, Holds, After;
    forall i | 0 <= i < |answers| + 1 ensures DoneAt(h, ops, answers + [answer], run + [s], i) {
      assert i < |answers| ==> DoneAt(h, ops, answers, run, i);
    }
  }

  lemma LifeStarts<V>(rank: Key -> nat, s: Store<V>)
    ensures Life(rank, [s])
  {}

  // The `i`th operation.
  method Perform<V(==,!new)>(engine: QueryEngine<V>, ghost h: Host<V>, ops: seq<Op<V>>, i: nat, host: Host<V>)
      returns (next: Host<V>, answer: Option<Result<V>>)
    requires Pure(h) && i < |ops| && Legal(h, ops[i]) && host == After(h, ops[..i])
    requires engine.Idle() && Inv(host, engine.Now())
    requires Calm(ops[..i]) ==> engine.Quiet()
    requires (forall j :: 0 <= j < i ==> !ops[j].RequestLater?) ==> engine.arrival == None
    modifies engine
    ensures next == After(h, ops[..i + 1])
    ensures engine.Idle() && Inv(next, engine.Now())
    ensures Next(h.rank, old(engine.Now()), engine.Now())
    ensures Calm(ops[..i + 1]) ==> engine.Quiet()
    ensures (forall j :: 0 <= j < i + 1 ==> !ops[j].RequestLater?) ==> engine.arrival == None
    ensures answer.Some? <==> ops[i].Ask?
    ensures ops[i].Ask? ==> Correct(host, ops[..i], ops[i].key, answer.value)
    ensures ops[i].Ask? && answer.value.Ok? ==> Holds(engine.Now(), ops[i].key, answer.value.value)
  {
    hide Inv, Describes, Serves, Pure, Correct, Next, Holds;
    assert ops[..i + 1] == ops[..i] + [ops[i]];
    assert ops[..i + 1][..i] == ops[..i];
    AfterKeepsProgram(h, ops[..i]);
    NothingIsAStep(h.rank, engine.Now());
    next, answer := host, None;
    match ops[i] {
      case Set(key, value) =>
        ghost var s0 := engine.Now();
        next := Edited(host, key, value);
        ghost var stamped := s0.inputChanged[key := s0.revision + 1];
        EditIsAStep(host, s0, s0.(revision := s0.revision + 1, inputChanged := stamped), key);
        engine.BumpInput(key, host, next);
      case Ask(key) =>
        var r := AskPure(engine, ops[..i], key, host);
        answer := Some(r);
      case RequestCancellation => engine.RequestCancellation();
      case ClearCancellation => engine.ClearCancellation();
      case RequestLater(checks) => engine.RequestLater(checks);
    }
  }
}
