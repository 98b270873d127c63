// A spec's semantic dependency closure: the work-stack search, what it finds, and
// what it finds on the graph the resolver really records.

module SpecClosures {
  import opened QueryModel
  import opened FrontEnd

  // ---- Sorted, duplicate-free listing of a set ----

  lemma {:induction false} HasLeast(s: set<nat>)
    requires s != {}
    ensures exists m :: m in s && forall x :: x in s ==> m <= x
  {
    var pick :| pick in s;
    var rest := s - {pick};
    if rest == {} {
      assert s == {pick};
    } else {
      HasLeast(rest);
      var m :| m in rest && forall x :: x in rest ==> m <= x;
      assert forall x :: x in s ==> x == pick || x in rest;
      var least := if pick < m then pick else m;
      assert least in s && forall x :: x in s ==> least <= x;
    }
  }

  function Least(s: set<nat>): (m: nat)
    requires s != {}
    ensures m in s && forall x :: x in s ==> m <= x
  {
    HasLeast(s);
    var m :| m in s && forall x :: x in s ==> m <= x;
    m
  }

  function Listed(s: set<nat>): (r: seq<nat>)
    ensures forall x :: x in r <==> x in s
    ensures forall i, j :: 0 <= i < j < |r| ==> r[i] < r[j]
  {
    if s == {} then []
    else
      var m := Least(s);
      [m] + Listed(s - {m})
  }

  // ---- The search ----

  function Elements(ids: seq<nat>): set<nat> {
    set x | x in ids
  }

  // Every id some recorded dependency list mentions.
  function Mentioned(r: Resolution): set<nat> {
    set owner, x | owner in r.specDeps && x in r.specDeps[owner] :: x
  }

  function Roots(r: Resolution, spec: nat): seq<nat> {
    r.DependenciesOf(spec) + (if r.TargetOf(spec).Some? then [r.TargetOf(spec).value] else [])
  }

  function Unseen(ids: seq<nat>, seen: set<nat>): (out: seq<nat>)
    ensures forall x :: x in out <==> x in ids && x !in seen
  {
    if ids == [] then []
    else if ids[0] in seen then Unseen(ids[1..], seen)
    else [ids[0]] + Unseen(ids[1..], seen)
  }

  ghost function Unvisited(r: Resolution, seen: set<nat>, stack: seq<nat>): set<nat> {
    Mentioned(r) + Elements(stack) - seen
  }

  // Popping a seen id leaves the unvisited ids as they are; visiting a new one
  // shrinks them, whatever it pushes.
  lemma PopShrinks(r: Resolution, seen: set<nat>, stack: seq<nat>)
    requires stack != []
    ensures var x := stack[|stack| - 1]; var rest := stack[..|stack| - 1];
      && (x in seen ==> Unvisited(r, seen, rest) == Unvisited(r, seen, stack))
      && (x !in seen ==>
            Unvisited(r, seen + {x}, rest + Unseen(r.DependenciesOf(x), seen + {x})) < Unvisited(r, seen, stack))
  {
    var x, rest := stack[|stack| - 1], stack[..|stack| - 1];
    assert stack == rest + [x];
    if x !in seen {
      assert x in Unvisited(r, seen, stack);
      assert x !in Unvisited(r, seen + {x}, rest + Unseen(r.DependenciesOf(x), seen + {x}));
    }
  }

  // The ids found by working off `stack`, last first, never visiting one twice.
  function Explore(r: Resolution, seen: set<nat>, stack: seq<nat>): set<nat>
    decreases Unvisited(r, seen, stack), |stack|
  {
    if stack == [] then seen
    else
      PopShrinks(r, seen, stack);
      var x, rest := stack[|stack| - 1], stack[..|stack| - 1];
      if x in seen then Explore(r, seen, rest)
      else Explore(r, seen + {x}, rest + Unseen(r.DependenciesOf(x), seen + {x}))
  }

  function SpecClosure(r: Resolution, spec: nat): seq<nat> {
    Listed(Explore(r, {}, Roots(r, spec)))
  }

  method ComputeSpecClosure(r: Resolution, spec: nat) returns (closure: seq<nat>)
    ensures closure == SpecClosure(r, spec)
  {
    var seen: set<nat> := {};
    var stack := Roots(r, spec);
    while stack != []
      invariant Explore(r, seen, stack) == Explore(r, {}, Roots(r, spec))
      decreases Unvisited(r, seen, stack), |stack|
    {
      PopShrinks(r, seen, stack);
      var symbol := stack[|stack| - 1];
      stack := stack[..|stack| - 1];
      if symbol !in seen {
        seen := seen + {symbol};
        stack := PushUnseen(r.DependenciesOf(symbol), seen, stack);
      }
    }
    closure := Listed(seen);
  }

  method PushUnseen(ids: seq<nat>, seen: set<nat>, stack: seq<nat>) returns (out: seq<nat>)
    ensures out == stack + Unseen(ids, seen)
  {
    out := stack;
    for i := 0 to |ids|
      invariant out + Unseen(ids[i..], seen) == stack + Unseen(ids, seen)
    {
      if ids[i] !in seen { out := out + [ids[i]]; }
    }
  }

  // ---- What the search finds ----

  ghost predicate Path(r: Resolution, path: seq<nat>) {
    && path != []
    && forall i :: 0 <= i < |path| - 1 ==> path[i + 1] in r.DependenciesOf(path[i])
  }

  ghost predicate From(r: Resolution, path: seq<nat>, starts: seq<nat>, end: nat) {
    Path(r, path) && path[0] in starts && path[|path| - 1] == end
  }

  // Some chain of recorded dependencies leads from a root of the spec to `id`.
  ghost predicate Reachable(r: Resolution, starts: seq<nat>, id: nat) {
    exists path :: From(r, path, starts, id)
  }

  // What a seen id depends on is seen or waiting.
  ghost predicate Frontier(r: Resolution, seen: set<nat>, stack: seq<nat>) {
    forall x, y :: x in seen && y in r.DependenciesOf(x) ==> y in seen || y in stack
  }

  lemma {:induction false} ExploreClosed(r: Resolution, seen: set<nat>, stack: seq<nat>)
    requires Frontier(r, seen, stack)
    ensures seen <= Explore(r, seen, stack)
    ensures forall x :: x in stack ==> x in Explore(r, seen, stack)
    ensures Frontier(r, Explore(r, seen, stack), [])
    decreases Unvisited(r, seen, stack), |stack|
  {
    if stack != [] {
      PopShrinks(r, seen, stack);
      var x, rest := stack[|stack| - 1], stack[..|stack| - 1];
      assert stack == rest + [x];
      if x in seen {
        ExploreClosed(r, seen, rest);
      } else {
        ExploreClosed(r, seen + {x}, rest + Unseen(r.DependenciesOf(x), seen + {x}));
      }
    }
  }

  lemma {:induction false} ExploreOnlyReachable(r: Resolution, starts: seq<nat>, seen: set<nat>, stack: seq<nat>,
        id: nat)
    requires forall x :: x in seen || x in stack ==> Reachable(r, starts, x)
    requires id in Explore(r, seen, stack)
    ensures Reachable(r, starts, id)
    decreases Unvisited(r, seen, stack), |stack|
  {
    if stack != [] {
      PopShrinks(r, seen, stack);
      var x, rest := stack[|stack| - 1], stack[..|stack| - 1];
      assert stack == rest + [x];
      if x in seen {
        ExploreOnlyReachable(r, starts, seen, rest, id);
      } else {
        var more := Unseen(r.DependenciesOf(x), seen + {x});
        var path :| From(r, path, starts, x);
        forall y | y in more ensures Reachable(r, starts, y) {
          assert From(r, path + [y], starts, y);
        }
        ExploreOnlyReachable(r, starts, seen + {x}, rest + more, id);
      }
    }
  }

  lemma {:induction false} PathStaysInside(r: Resolution, inside: set<nat>, path: seq<nat>)
    requires Frontier(r, inside, []) && Path(r, path) && path[0] in inside
    ensures path[|path| - 1] in inside
  {
    if |path| > 1 {
      var front := path[..|path| - 1];
      PathStaysInside(r, inside, front);
      assert path[|path| - 2 + 1] in r.DependenciesOf(path[|path| - 2]);
    }
  }

  // The closure lists, in increasing order and once each, exactly the symbols some
  // chain of recorded dependencies reaches, cyclic graphs included.
  lemma ClosureIsReachability(r: Resolution, spec: nat, id: nat)
    ensures id in SpecClosure(r, spec) <==> Reachable(r, Roots(r, spec), id)
  {
    var roots := Roots(r, spec);
    ExploreClosed(r, {}, roots);
    forall x | x in roots ensures Reachable(r, roots, x) {
      assert From(r, [x], roots, x);
    }
    if id in SpecClosure(r, spec) {
      ExploreOnlyReachable(r, roots, {}, roots, id);
    }
    if Reachable(r, roots, id) {
      var path :| From(r, path, roots, id);
      PathStaysInside(r, Explore(r, {}, roots), path);
    }
  }

  // ---- On the graph the resolver records ----

  // The resolver records dependency lists for specs alone, and lists items only.
  ghost predicate RecordsOnlySpecs(r: Resolution) {
    && (forall id :: id in r.specDeps || id in r.specTargets ==> r.KindOf(id) == Some(Spec))
    && (forall id, d :: id in r.specDeps && d in r.specDeps[id] ==> r.KindOf(d) != Some(Spec))
    && (forall id :: id in r.specTargets ==> r.KindOf(r.specTargets[id]) == Some(Function))
  }

  // There the closure is one level deep: the spec's own references and its target,
  // never what those functions call in turn.
  lemma ClosureIsOneLevel(r: Resolution, spec: nat, id: nat)
    requires RecordsOnlySpecs(r)
    ensures id in SpecClosure(r, spec) <==> id in Roots(r, spec)
  {
    ClosureIsReachability(r, spec, id);
    var roots := Roots(r, spec);
    if id in roots {
      assert From(r, [id], roots, id);
    }
    if Reachable(r, roots, id) {
      var path :| From(r, path, roots, id);
      if |path| > 1 {
        assert path[0 + 1] in r.DependenciesOf(path[0]);
      }
    }
  }
}
