/**
 Package dependency graphs: the least closed superset and the greatest closed subset of a set of packages, which are
 what the worklists of scripts/generate_flavor_config.py and scripts/flavor_config.py compute.
 */
module DepGraph {
  type Name = string

  datatype Graph = Graph(packages: seq<Name>, depends: map<Name, seq<Name>>)

  function All(g: Graph): set<Name> {
    set p | p in g.packages
  }

  predicate Edge(g: Graph, p: Name, d: Name) {
    p in g.depends && d in g.depends[p]
  }

  /** Every package has its dependencies listed, and all of them are packages. */
  ghost predicate Known(g: Graph) {
    g.depends.Keys == All(g) && forall p, d :: Edge(g, p, d) ==> d in All(g)
  }

  ghost predicate Closed(g: Graph, s: set<Name>) {
    forall p, d :: p in s && Edge(g, p, d) ==> d in s
  }

  ghost predicate InEvery(g: Graph, s: set<Name>, p: Name) {
    forall t: set<Name> :: s <= t && Closed(g, t) ==> p in t
  }

  /** What every closed superset contains. */
  ghost function Closure(g: Graph, s: set<Name>): set<Name> {
    set p | p in All(g) && InEvery(g, s, p)
  }

  ghost predicate InSome(g: Graph, s: set<Name>, p: Name) {
    exists t: set<Name> :: t <= s && Closed(g, t) && p in t
  }

  /** What some closed subset contains. */
  ghost function Core(g: Graph, s: set<Name>): set<Name> {
    set p | p in s && InSome(g, s, p)
  }

  /** The closure is the least closed superset. */
  lemma ClosureIsLeast(g: Graph, s: set<Name>)
    requires Known(g) && s <= All(g)
    ensures s <= Closure(g, s) <= All(g) && Closed(g, Closure(g, s))
    ensures forall t: set<Name> :: s <= t && Closed(g, t) ==> Closure(g, s) <= t
  {
    forall p, d | p in Closure(g, s) && Edge(g, p, d) ensures d in Closure(g, s) {
      forall t: set<Name> | s <= t && Closed(g, t) ensures d in t {
        assert p in t;
      }
    }
  }

  lemma ClosureBasics(g: Graph, s: set<Name>)
    requires Known(g) && s <= All(g)
    ensures s <= Closure(g, s) <= All(g) && Closed(g, Closure(g, s))
  {
    ClosureIsLeast(g, s);
  }

  lemma ClosureWithin(g: Graph, s: set<Name>, t: set<Name>)
    requires s <= t && Closed(g, t)
    ensures Closure(g, s) <= t
  {
    forall p | p in Closure(g, s) ensures p in t {
      assert InEvery(g, s, p);
    }
  }

  /** A closed superset without anything superfluous is the closure. */
  lemma ClosureUnique(g: Graph, s: set<Name>, r: set<Name>)
    requires Known(g) && s <= r <= Closure(g, s) && s <= All(g) && Closed(g, r)
    ensures r == Closure(g, s)
  {
    ClosureIsLeast(g, s);
  }

  /** The core is the greatest closed subset. */
  lemma CoreIsGreatest(g: Graph, s: set<Name>)
    ensures Core(g, s) <= s && Closed(g, Core(g, s))
    ensures forall t: set<Name> :: t <= s && Closed(g, t) ==> t <= Core(g, s)
  {
    forall p, d | p in Core(g, s) && Edge(g, p, d) ensures d in Core(g, s) {
      var t: set<Name> :| t <= s && Closed(g, t) && p in t;
      assert d in t;
    }
  }

  lemma CoreUnique(g: Graph, s: set<Name>, r: set<Name>)
    requires Core(g, s) <= r <= s && Closed(g, r)
    ensures r == Core(g, s)
  {
    CoreIsGreatest(g, s);
  }

  lemma ClosureMonotone(g: Graph, s: set<Name>, t: set<Name>)
    requires Known(g) && s <= t <= All(g)
    ensures Closure(g, s) <= Closure(g, t)
  {
    ClosureBasics(g, t);
    ClosureWithin(g, s, Closure(g, t));
  }

  lemma ClosedUnion(g: Graph, s: set<Name>, t: set<Name>)
    requires Closed(g, s) && Closed(g, t)
    ensures Closed(g, s + t)
  {
  }

  /** The closure of a union is the union of the closures. */
  lemma ClosureOfUnion(g: Graph, s: set<Name>, t: set<Name>)
    requires Known(g) && s <= All(g) && t <= All(g)
    ensures Closure(g, s + t) == Closure(g, s) + Closure(g, t)
  {
    ClosureBasics(g, s);
    ClosureBasics(g, t);
    ClosureMonotone(g, s, s + t);
    ClosureMonotone(g, t, s + t);
    ClosedUnion(g, Closure(g, s), Closure(g, t));
    ClosureWithin(g, s + t, Closure(g, s) + Closure(g, t));
  }

  lemma ClosureTwice(g: Graph, s: set<Name>)
    requires Known(g) && s <= All(g)
    ensures Closure(g, Closure(g, s)) == Closure(g, s)
  {
    ClosureBasics(g, s);
    ClosureBasics(g, Closure(g, s));
    ClosureWithin(g, Closure(g, s), Closure(g, s));
  }

  /** A package is in the core exactly when all that it needs is in the set. */
  lemma CoreByClosure(g: Graph, s: set<Name>, p: Name)
    requires Known(g) && p in All(g)
    ensures p in Core(g, s) <==> Closure(g, {p}) <= s
  {
    ClosureIsLeast(g, {p});
    CoreIsGreatest(g, s);
    if p in Core(g, s) {
      assert {p} <= Core(g, s);
    }
  }

  /** Pruning by two conditions, one after the other in either order, is pruning by both. */
  lemma CoreTwice(g: Graph, s: set<Name>, a: set<Name>, b: set<Name>)
    ensures Core(g, Core(g, s * a) * b) == Core(g, s * a * b) == Core(g, Core(g, s * b) * a)
  {
    CoreOnce(g, s, a, b);
    CoreOnce(g, s, b, a);
    assert s * a * b == s * b * a;
  }

  lemma CoreOnce(g: Graph, s: set<Name>, a: set<Name>, b: set<Name>)
    ensures Core(g, Core(g, s * a) * b) == Core(g, s * a * b)
  {
    CoreIsGreatest(g, s * a);
    CoreIsGreatest(g, s * a * b);
    CoreIsGreatest(g, Core(g, s * a) * b);
  }

  // ---------------------------------------------------------------- worklists

  /** dependency_closure of scripts/flavor_config.py. */
  method DependencyClosure(g: Graph, packages: set<Name>) returns (result: set<Name>)
    requires Known(g) && packages <= All(g)
    ensures result == Closure(g, packages)
  {
    ClosureBasics(g, packages);
    result := packages;
    var pending := ToList(packages);
    while pending != []
      invariant packages <= result <= Closure(g, packages)
      invariant forall p :: p in pending ==> p in result
      invariant forall p, d :: p in result && p !in pending && Edge(g, p, d) ==> d in result
      decreases |All(g) - result|, |pending|
    {
      var package := pending[|pending| - 1];
      ghost var before := result;
      result, pending := Expand(g, package, packages, result, pending[..|pending| - 1]);
      Shrinks(All(g), before, result);
    }
    ClosureUnique(g, packages, result);
  }

  /** One turn of the worklist: the new dependencies of a package go into the result and the list. */
  method Expand(g: Graph, package: Name, ghost start: set<Name>, before: set<Name>, queue: seq<Name>)
      returns (result: set<Name>, pending: seq<Name>)
    requires Known(g) && package in before && before <= Closure(g, start) && start <= All(g)
    requires forall p :: p in queue ==> p in before
    ensures before <= result <= Closure(g, start)
    ensures forall p :: p in pending ==> p in result
    ensures forall p :: p in queue ==> p in pending
    ensures forall p :: p in result ==> p in before || p in pending
    ensures forall d :: Edge(g, package, d) ==> d in result
    ensures result == before ==> pending == queue
  {
    ClosureBasics(g, start);
    result, pending := before, queue;
    var depends := g.depends[package];
    for i := 0 to |depends|
      invariant before <= result <= Closure(g, start)
      invariant forall p :: p in pending ==> p in result
      invariant forall p :: p in queue ==> p in pending
      invariant forall p :: p in result ==> p in before || p in pending
      invariant forall k :: 0 <= k < i ==> depends[k] in result
      invariant result == before ==> pending == queue
    {
      var dependency := depends[i];
      assert Edge(g, package, dependency);
      if dependency !in result {
        result := result + {dependency};
        pending := pending + [dependency];
        assert dependency in pending;
      }
    }
  }

  lemma Shrinks(all: set<Name>, before: set<Name>, after: set<Name>)
    requires before <= after <= all
    ensures |all - after| <= |all - before| && (before != after ==> |all - after| < |all - before|)
  {
    assert all - before == (all - after) + (after - before);
    if before != after {
      var x :| x in after - before;
      assert |after - before| > 0;
    }
  }

  /** Some order of a set's elements. */
  method ToList(s: set<Name>) returns (r: seq<Name>)
    ensures forall x :: x in r <==> x in s
  {
    r := [];
    var rest := s;
    while rest != {}
      invariant rest <= s && forall x :: x in r <==> x in s - rest
      decreases |rest|
    {
      var x :| x in rest;
      r := r + [x];
      rest := rest - {x};
    }
  }
}
