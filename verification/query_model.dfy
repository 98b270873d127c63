// The vocabulary of the red-green engine: keys, memos, the step program a host
// runs for a key, and what "from scratch" means for such a program.

module QueryModel {

  // A query instance: a kind tag plus its argument.
  datatype Key = Key(kind: nat, arg: nat)

  datatype Option<+T> = None | Some(value: T) {
    function GetOr(other: T): T {
      if Some? then value else other
    }
  }

  // What a query returns to its caller.
  datatype Result<+T> = Ok(value: T) | Cancelled | NoText(file: nat)

  // The next thing a query does, given the answers it has read so far. A host
  // that runs only ever asks, answers or fails. The last two steps are claims
  // about a host rather than things a host does: `Fixed(v)` says the value will
  // be `v` whatever else is read, `Unclaimed` says nothing is claimed.
  datatype Step<+V> =
    | Query(key: Key)
    | Input(key: Key)
    | Ret(value: V)
    | Fail(file: nat)
    | Fixed(value: V)
    | Unclaimed
  {
    predicate Asks() { Query? || Input? }
    predicate Settled() { Fixed? || Unclaimed? }
  }

  // A host at one moment: the step program of every key, the current input
  // values, and the two measures that make every query terminate. Inputs have
  // rank 0; a derived query reads only keys of smaller rank and at most `limit`
  // of them.
  datatype Host<!V> = Host(
    step: (Key, seq<V>) -> Step<V>,
    input: Key -> V,
    rank: Key -> nat,
    limit: Key -> nat)

  ghost predicate WellRanked<V(!new)>(h: Host<V>) {
    && (forall k, read :: h.step(k, read).Query? ==> 0 < h.rank(h.step(k, read).key) < h.rank(k))
    && (forall k, read :: h.step(k, read).Input? ==> h.rank(h.step(k, read).key) == 0)
    && (forall k, read :: h.limit(k) <= |read| ==> !h.step(k, read).Asks())
  }

  ghost predicate Runnable<V(!new)>(h: Host<V>) {
    forall k, read :: !h.step(k, read).Settled()
  }

  // No query of the host can fail with a domain error.
  ghost predicate Total<V(!new)>(h: Host<V>) {
    forall k, read :: !h.step(k, read).Fail?
  }

  // ---- From-scratch evaluation ----

  datatype Outcome<+V> = Value(value: V) | Error(file: nat) | Unknown

  // The value of `k` computed with no memo at all.
  ghost function Eval<V(!new)>(h: Host<V>, k: Key): Outcome<V>
    requires WellRanked(h)
    decreases h.rank(k), 1, 0
  {
    Run(h, k, [])
  }

  // Continue the program of `k` after it has read `read`.
  ghost function Run<V(!new)>(h: Host<V>, k: Key, read: seq<V>): Outcome<V>
    requires WellRanked(h)
    decreases h.rank(k), 0, h.limit(k) - |read|
  {
    match h.step(k, read)
    case Ret(v) => Value(v)
    case Fixed(v) => Value(v)
    case Fail(file) => Error(file)
    case Unclaimed => Unknown
    case Input(d) => Run(h, k, read + [h.input(d)])
    case Query(d) =>
      match Eval(h, d)
      case Value(v) => Run(h, k, read + [v])
      case other => other
  }

  // ---- What evaluating from scratch asks for ----

  // Evaluating `k` from scratch computes `target`. A claim that does not say what
  // is read next may ask for anything.
  ghost predicate Needs<V(!new)>(h: Host<V>, k: Key, target: Key)
    requires WellRanked(h)
    decreases h.rank(k), 1, 0
  {
    target == k || Reaches(h, k, [], target)
  }

  ghost predicate Reaches<V(!new)>(h: Host<V>, k: Key, read: seq<V>, target: Key)
    requires WellRanked(h)
    decreases h.rank(k), 0, h.limit(k) - |read|
  {
    match h.step(k, read)
    case Ret(_) => false
    case Fail(_) => false
    case Fixed(_) => true
    case Unclaimed => true
    case Input(d) => Reaches(h, k, read + [h.input(d)], target)
    case Query(d) =>
      || Needs(h, d, target)
      || (match Eval(h, d)
          case Value(v) => Reaches(h, k, read + [v], target)
          case Error(_) => false
          case Unknown => true)
  }

  lemma {:induction false} ReachesTrans<V(!new)>(h: Host<V>, k: Key, read: seq<V>, mid: Key, target: Key)
    requires WellRanked(h) && Reaches(h, k, read, mid) && Needs(h, mid, target)
    ensures Reaches(h, k, read, target)
    decreases h.rank(k), h.limit(k) - |read|
  {
    match h.step(k, read) {
      case Input(d) => ReachesTrans(h, k, read + [h.input(d)], mid, target);
      case Query(d) =>
        if Needs(h, d, mid) {
          if mid != d { ReachesTrans(h, d, [], mid, target); }
        } else if Eval(h, d).Value? {
          ReachesTrans(h, k, read + [Eval(h, d).value], mid, target);
        }
      case _ =>
    }
  }

  lemma NeedsTrans<V(!new)>(h: Host<V>, k: Key, mid: Key, target: Key)
    requires WellRanked(h) && Needs(h, k, mid) && Needs(h, mid, target)
    ensures Needs(h, k, target)
  {
    if mid != k { ReachesTrans(h, k, [], mid, target); }
  }

  // An answer agrees with an outcome when it is that outcome or nothing is claimed.
  predicate Agrees<V(==)>(claim: Outcome<V>, v: V) {
    claim.Unknown? || claim == Value(v)
  }

  predicate FailsAs<V>(claim: Outcome<V>, file: nat) {
    claim.Unknown? || (claim.Error? && claim.file == file)
  }

  // ---- A running host against the claims made about it ----

  // `read` are answers the running host could have been given: each is the
  // current input, or a value the claims allow.
  ghost predicate Truthful<V(!new)>(host: Host<V>, claims: Host<V>, k: Key, read: seq<V>)
    requires WellRanked(claims)
  {
    forall i :: 0 <= i < |read| ==> Answers(host, claims, host.step(k, read[..i]), read[i])
  }

  ghost predicate Answers<V(!new)>(host: Host<V>, claims: Host<V>, step: Step<V>, v: V)
    requires WellRanked(claims)
  {
    match step
    case Input(d) => v == host.input(d)
    case Query(d) => Agrees(Eval(claims, d), v)
    case _ => false
  }

  // What the host does next is what the claims say it does.
  predicate Fits<V(==)>(does: Step<V>, claimed: Step<V>) {
    match claimed
    case Unclaimed => true
    case Fixed(v) => does.Asks() || does == Ret(v)
    case _ => does == claimed
  }

  // A settled claim does not change as more is read.
  ghost predicate StaysSettled<V(!new)>(h: Host<V>) {
    forall k, read, v :: SettledAfter(h, k, read, v)
  }

  ghost predicate SettledAfter<V>(h: Host<V>, k: Key, read: seq<V>, v: V) {
    h.step(k, read).Settled() ==> h.step(k, read + [v]) == h.step(k, read)
  }

  // `claims` describes `host`: same inputs and ranks, and on every truthful
  // history the host steps as claimed. A pure host describes itself.
  ghost predicate Describes<V(!new)>(claims: Host<V>, host: Host<V>) {
    && WellRanked(host) && WellRanked(claims) && Runnable(host) && StaysSettled(claims)
    && claims.rank == host.rank && claims.input == host.input
    && (Total(host) || forall k, read :: !claims.step(k, read).Fixed?)
    && (forall k, read | Truthful(host, claims, k, read) ::
          Fits(host.step(k, read), claims.step(k, read)))
  }

  lemma PureHostDescribesItself<V(!new)>(h: Host<V>)
    requires WellRanked(h) && Runnable(h)
    ensures Describes(h, h)
  {
    forall k, read ensures Fits(h.step(k, read), h.step(k, read)) {
      assert !h.step(k, read).Settled();
    }
  }
}
