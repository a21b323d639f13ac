/** The cycle check of load_catalog in scripts/generate_flavor_config.py: a depth-first search with a path. */
module CycleCheck {
  import opened Wrappers
  import opened DepGraph

  /** Consecutive packages depend on one another. */
  predicate Path(g: Graph, path: seq<Name>) {
    forall i :: 0 < i < |path| ==> Edge(g, path[i - 1], path[i])
  }

  /** A path from a package back to itself. */
  predicate Cycle(g: Graph, c: seq<Name>) {
    |c| >= 2 && c[0] == c[|c| - 1] && Path(g, c)
  }

  ghost predicate Cyclic(g: Graph) {
    exists c :: Cycle(g, c)
  }

  /** No cycle passes through these packages. */
  ghost predicate Clear(g: Graph, s: set<Name>) {
    Closed(g, s) && forall c, i :: Cycle(g, c) && 0 <= i < |c| ==> c[i] !in s
  }

  /** A path that enters a closed set stays in it. */
  lemma {:induction false} StaysIn(g: Graph, s: set<Name>, path: seq<Name>, i: nat, j: nat)
    requires Path(g, path) && Closed(g, s) && i <= j < |path| && path[i] in s
    ensures path[j] in s
    decreases j - i
  {
    if i < j {
      StaysIn(g, s, path, i, j - 1);
      assert Edge(g, path[j - 1], path[j]);
    }
  }

  /** A package whose dependencies are all clear of cycles is clear itself. */
  lemma ClearNext(g: Graph, s: set<Name>, p: Name)
    requires Clear(g, s) && forall d :: Edge(g, p, d) ==> d in s
    ensures Clear(g, s + {p})
  {
    forall c, i | Cycle(g, c) && 0 <= i < |c| ensures c[i] != p {
      var k := if i == |c| - 1 then 0 else i;
      assert Edge(g, c[i], c[k + 1]);
    }
  }

  lemma NoneLeft(g: Graph, s: set<Name>)
    requires Known(g) && Clear(g, s) && All(g) <= s
    ensures !Cyclic(g)
  {
    forall c ensures !Cycle(g, c) {
      if |c| >= 2 && Path(g, c) {
        assert Edge(g, c[0], c[1]);
      }
    }
  }

  /** path_stack.index(package) and the slice from there. */
  method CycleFrom(g: Graph, path: seq<Name>, package: Name) returns (cycle: seq<Name>)
    requires package in path && Path(g, path + [package])
    ensures Cycle(g, cycle)
  {
    var start := 0;
    while path[start] != package
      invariant start < |path| && forall i :: 0 <= i < start ==> path[i] != package
      decreases |path| - start
    {
      start := start + 1;
    }
    cycle := path[start..] + [package];
    var whole := path + [package];
    assert cycle == whole[start..];
    forall i | 0 < i < |cycle| ensures Edge(g, cycle[i - 1], cycle[i]) {
      assert Edge(g, whole[start + i - 1], whole[start + i]);
    }
  }

  class Search {
    const g: Graph
    var visiting: set<Name>
    var visited: set<Name>

    constructor (g: Graph)
      ensures this.g == g && visiting == {} && visited == {}
    {
      this.g, visiting, visited := g, {}, {};
    }

    /** The packages being visited are those on the path, and the visited ones are clear of cycles. */
    ghost predicate Valid()
      reads this
    {
      Known(g) && visiting <= All(g) && Clear(g, visited)
    }

    /** `visit`: the package ends up among the visited, or a real cycle is reported. */
    method Visit(package: Name, path: seq<Name>) returns (cycle: Option<seq<Name>>)
      requires Valid() && package in All(g) && visiting == (set p | p in path) && Path(g, path + [package])
      modifies this
      ensures Valid() && old(visited) <= visited
      ensures cycle.None? ==> package in visited && visiting == old(visiting)
      ensures cycle.Some? ==> Cycle(g, cycle.value)
      decreases All(g) - visiting
    {
      if package in visited {
        return None;
      }
      if package in visiting {
        var found := CycleFrom(g, path, package);
        return Some(found);
      }
      visiting := visiting + {package};
      var depends := g.depends[package];
      for i := 0 to |depends|
        invariant Valid() && old(visited) <= visited && visiting == old(visiting) + {package}
        invariant forall k :: 0 <= k < i ==> depends[k] in visited
      {
        assert Edge(g, package, depends[i]);
        Extend(g, path, package, depends[i]);
        cycle := Visit(depends[i], path + [package]);
        if cycle.Some? {
          return;
        }
      }
      visiting := visiting - {package};
      ClearNext(g, visited, package);
      visited := visited + {package};
      return None;
    }

    /** The loop over all packages: it reports a cycle exactly when there is one, and a real one. */
    method Check() returns (cycle: Option<seq<Name>>)
      requires Valid() && visiting == {}
      modifies this
      ensures cycle.Some? <==> Cyclic(g)
      ensures cycle.Some? ==> Cycle(g, cycle.value)
    {
      for i := 0 to |g.packages|
        invariant Valid() && visiting == {}
        invariant forall k :: 0 <= k < i ==> g.packages[k] in visited
      {
        cycle := Visit(g.packages[i], []);
        if cycle.Some? {
          return;
        }
      }
      NoneLeft(g, visited);
      return None;
    }
  }

  lemma Extend(g: Graph, path: seq<Name>, package: Name, d: Name)
    requires Path(g, path + [package]) && Edge(g, package, d)
    ensures Path(g, path + [package] + [d])
  {
    var longer := path + [package] + [d];
    forall i | 0 < i < |longer| ensures Edge(g, longer[i - 1], longer[i]) {
      if i < |path| + 1 {
        assert Edge(g, (path + [package])[i - 1], (path + [package])[i]);
      }
    }
  }
}
