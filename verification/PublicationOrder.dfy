/**
 The publication order of a release: a depth-first walk over path dependencies from the
 facade package, which must end with every package after the packages it depends on.
 */
module PublicationOrder {
  import opened Wrappers

  datatype Dependency = Dependency(name: string, path: Option<string>)

  datatype Package = Package(
    name: string, version: string, publish: Option<seq<string>>, dependencies: seq<Dependency>)

  datatype Error = Cycle(name: string) | Missing(name: string) | NotPublishable(name: string)

  const FACADE := "eqiora"
  const REGISTRY := "crates-io"

  /** The packages by name, each under its own name. */
  type Graph = g: map<string, Package> | forall name :: name in g ==> g[name].name == name witness map[]

  /** The packages by name; a later package replaces an earlier one of the same name. */
  function Index(packages: seq<Package>): Graph
  {
    if packages == [] then map[]
    else
      var last := packages[|packages| - 1];
      Index(packages[..|packages| - 1])[last.name := last]
  }

  predicate IsPathDependency(d: Dependency)
  {
    d.path.Some? && d.path.value != ""
  }

  predicate Publishable(package: Package)
  {
    package.publish.None? || REGISTRY in package.publish.value
  }

  // ---------------------------------------------------------------- the dependency graph

  /** A dependency by path, to a path that is given and not empty. */
  ghost predicate DependsOn(package: Package, name: string)
  {
    exists i, path :: && 0 <= i < |package.dependencies| && package.dependencies[i] == Dependency(name, Some(path))
                      && |path| > 0
  }

  /** The package does not restrict its registries, or names the public one among them. */
  ghost predicate IsPublic(package: Package)
  {
    package.publish.Some? ==> exists i :: 0 <= i < |package.publish.value| && package.publish.value[i] == "crates-io"
  }

  ghost predicate Edge(g: Graph, a: string, b: string)
  {
    a in g && DependsOn(g[a], b)
  }

  /** A walk along path dependencies. */
  ghost predicate IsWalk(g: Graph, p: seq<string>)
  {
    p != [] && (|p| == 1 || (Edge(g, p[0], p[1]) && IsWalk(g, p[1..])))
  }

  ghost predicate IsWalkFromTo(g: Graph, p: seq<string>, a: string, b: string)
  {
    IsWalk(g, p) && p[0] == a && p[|p| - 1] == b
  }

  ghost predicate Reaches(g: Graph, a: string, b: string)
  {
    exists p :: IsWalkFromTo(g, p, a, b)
  }

  ghost predicate OnCycle(g: Graph, a: string)
  {
    exists p :: IsWalkFromTo(g, p, a, a) && |p| >= 2
  }

  lemma {:induction false} WalkExtends(g: Graph, p: seq<string>, b: string)
    requires IsWalk(g, p) && Edge(g, p[|p| - 1], b)
    ensures IsWalk(g, p + [b])
  {
    if |p| > 1 {
      WalkExtends(g, p[1..], b);
      assert (p + [b])[1..] == p[1..] + [b];
    } else {
      assert (p + [b])[1..] == [b];
    }
  }

  lemma {:induction false} WalkSuffix(g: Graph, p: seq<string>, k: nat)
    requires IsWalk(g, p) && k < |p|
    ensures IsWalk(g, p[k..])
  {
    if k == 0 {
    } else {
      WalkSuffix(g, p[1..], k - 1);
      assert p[1..][k - 1..] == p[k..];
    }
  }

  lemma {:induction false} ReachesSelf(g: Graph, a: string)
    ensures Reaches(g, a, a)
  {
    assert IsWalkFromTo(g, [a], a, a);
  }

  lemma {:induction false} EdgeThenReaches(g: Graph, a: string, b: string, c: string)
    requires Edge(g, a, b) && Reaches(g, b, c)
    ensures Reaches(g, a, c)
  {
    var p :| IsWalkFromTo(g, p, b, c);
    assert ([a] + p)[1..] == p;
    assert IsWalkFromTo(g, [a] + p, a, c);
  }

  // ---------------------------------------------------------------- orders

  ghost function Names(order: seq<Package>): set<string>
  {
    set i | 0 <= i < |order| :: order[i].name
  }

  /** No package twice, and every package after all it depends on. */
  ghost predicate Topological(order: seq<Package>)
  {
    order == [] ||
    var before, last := order[..|order| - 1], order[|order| - 1];
    && Topological(before)
    && last.name !in Names(before)
    && forall name :: DependsOn(last, name) ==> name in Names(before)
  }

  /** The packages of the order are the graph's, and the registry accepts them. */
  ghost predicate Drawn(g: Graph, order: seq<Package>)
  {
    forall i :: 0 <= i < |order| ==> order[i].name in g && order[i] == g[order[i].name] && IsPublic(order[i])
  }

  lemma {:induction false} NamesNext(order: seq<Package>, package: Package)
    ensures Names(order + [package]) == Names(order) + {package.name}
  {
    var next := order + [package];
    forall name | name in Names(order) + {package.name}
      ensures name in Names(next)
    {
      if name == package.name {
        assert next[|order|].name == name;
      } else {
        var i :| 0 <= i < |order| && order[i].name == name;
        assert next[i].name == name;
      }
    }
  }

  lemma {:induction false} TopologicalEdge(g: Graph, order: seq<Package>, a: string, b: string)
    requires Topological(order) && Drawn(g, order) && a in Names(order) && Edge(g, a, b)
    ensures b in Names(order)
  {
    var before, last := order[..|order| - 1], order[|order| - 1];
    assert order == before + [last];
    NamesNext(before, last);
    if a != last.name {
      TopologicalEdge(g, before, a, b);
    }
  }

  /** An order holds everything that its packages reach. */
  lemma {:induction false} TopologicalWalk(g: Graph, order: seq<Package>, p: seq<string>)
    requires Topological(order) && Drawn(g, order) && IsWalk(g, p) && p[0] in Names(order)
    ensures p[|p| - 1] in Names(order)
  {
    if |p| > 1 {
      TopologicalEdge(g, order, p[0], p[1]);
      TopologicalWalk(g, order, p[1..]);
    }
  }

  /** No package of an order depends on itself through others. */
  lemma {:induction false} TopologicalIsAcyclic(g: Graph, order: seq<Package>, p: seq<string>)
    requires Topological(order) && Drawn(g, order) && IsWalk(g, p) && |p| >= 2 && p[0] in Names(order)
    ensures p[|p| - 1] != p[0]
  {
    var before, last := order[..|order| - 1], order[|order| - 1];
    assert order == before + [last];
    NamesNext(before, last);
    if p[0] in Names(before) {
      TopologicalIsAcyclic(g, before, p);
    } else {
      assert p[1] in Names(before);
      TopologicalWalk(g, before, p[1..]);
    }
  }

  // ---------------------------------------------------------------- the walk

  /** The error names a package that `start` reaches, and is true of it. */
  ghost predicate Truthful(g: Graph, start: string, error: Error)
  {
    Reaches(g, start, error.name) &&
    match error
    case Cycle(name) => OnCycle(g, name)
    case Missing(name) => name !in g
    case NotPublishable(name) => name in g && !IsPublic(g[name])
  }

  class Walk {
    const packages: Graph
    var active: set<string>
    var visited: set<string>
    var ordered: seq<Package>

    ghost predicate Valid()
      reads this
    {
      && active <= packages.Keys
      && active !! visited
      && visited == Names(ordered)
      && Topological(ordered)
      && Drawn(packages, ordered)
    }

    constructor (packages: Graph)
      ensures this.packages == packages && Valid() && active == {} && ordered == []
    {
      this.packages := packages;
      active, visited, ordered := {}, {}, [];
    }

    /** `trail` is the walk from the facade to the package being visited, without that package. */
    method Visit(name: string, ghost trail: seq<string>) returns (error: Option<Error>)
      requires Valid()
      requires IsTrail(packages, active, trail, name)
      modifies this
      ensures error.Some? ==> Truthful(packages, name, error.value)
      ensures error.None? ==> Valid() && active == old(active) && name in visited
      ensures error.None? ==> AllReached(packages, name, old(visited), visited)
      decreases |packages.Keys - active|, 0
    {
      hide IsWalk, Reaches, Topological, Drawn, OnCycle, IsTrail;
      ReachesSelf(packages, name);
      if name in active {
        TrailCloses(packages, active, trail, name);
        return Some(Cycle(name));
      }
      if name in visited {
        return None;
      }
      if name !in packages {
        return Some(Missing(name));
      }
      var package := packages[name];
      if !Publishable(package) {
        return Some(NotPublishable(name));
      }
      EnterSmaller(packages, active, name);
      active := active + {name};
      error := VisitDependencies(package, trail);
      if error.None? {
        Finish(name);
      }
    }

    /** Visits the path dependencies of the package just entered, in the order it lists them. */
    method VisitDependencies(package: Package, ghost trail: seq<string>) returns (error: Option<Error>)
      requires Valid()
      requires package.name in active && packages[package.name] == package
      requires IsTrail(packages, active - {package.name}, trail, package.name)
      modifies this
      ensures error.Some? ==> Truthful(packages, package.name, error.value)
      ensures error.None? ==> Valid() && active == old(active)
      ensures error.None? ==> forall d :: DependsOn(package, d) ==> d in visited
      ensures error.None? ==> AllReached(packages, package.name, old(visited), visited)
      decreases |packages.Keys - active|, 1
    {
      hide IsWalk, Reaches, Topological, Drawn, OnCycle, IsTrail, AllReached;
      error := None;
      var name := package.name;
      NoneReached(packages, name, visited);
      for i := 0 to |package.dependencies|
        invariant error.None? && Valid() && active == old(active)
        invariant forall j :: 0 <= j < i && IsPathDependency(package.dependencies[j])
                              ==> package.dependencies[j].name in visited
        invariant AllReached(packages, name, old(visited), visited)
      {
        var dependency := package.dependencies[i];
        if IsPathDependency(dependency) {
          assert Edge(packages, name, dependency.name);
          ghost var before := visited;
          TrailExtends(packages, active - {name}, trail, name, dependency.name);
          assert active - {name} + {name} == active;
          error := Visit(dependency.name, trail + [name]);
          if error.Some? {
            EdgeThenReaches(packages, name, dependency.name, error.value.name);
            return;
          }
          MoreReached(packages, name, dependency.name, old(visited), before, visited);
        }
      }
    }

    /** Leaves a package all of whose dependencies have been visited. */
    method Finish(name: string)
      requires Valid() && name in active && name !in visited && IsPublic(packages[name])
      requires forall d :: DependsOn(packages[name], d) ==> d in visited
      modifies this
      ensures Valid() && active == old(active) - {name} && visited == old(visited) + {name}
    {
      var package := packages[name];
      active := active - {name};
      visited := visited + {name};
      NamesNext(ordered, package);
      ordered := ordered + [package];
      assert ordered[..|ordered| - 1] == old(ordered);
    }
  }

  /** The walk from `start` has only added to the visited packages, and only what `start` reaches. */
  ghost predicate AllReached(g: Graph, start: string, before: set<string>, after: set<string>)
  {
    before <= after && forall x :: x in after && x !in before ==> Reaches(g, start, x)
  }

  lemma {:induction false} NoneReached(g: Graph, start: string, visited: set<string>)
    ensures AllReached(g, start, visited, visited)
  {
  }

  lemma {:induction false} MoreReached(
    g: Graph, start: string, next: string, first: set<string>, before: set<string>, after: set<string>)
    requires Edge(g, start, next)
    requires AllReached(g, start, first, before) && AllReached(g, next, before, after)
    ensures AllReached(g, start, first, after) && before <= after
  {
    forall x | x in after && x !in first
      ensures Reaches(g, start, x)
    {
      if x !in before {
        EdgeThenReaches(g, start, next, x);
      }
    }
  }

  lemma {:induction false} EnterSmaller(g: Graph, active: set<string>, name: string)
    requires name in g && name !in active
    ensures |g.Keys - (active + {name})| < |g.Keys - active|
  {
    SubsetSmaller(g.Keys - (active + {name}), g.Keys - active);
  }

  lemma {:induction false} SubsetSmaller(a: set<string>, b: set<string>)
    requires a < b
    ensures |a| < |b|
  {
    assert b == a + (b - a);
    assert |b| == |a| + |b - a|;
  }

  /** The active packages are those of the walk that led to `name`. */
  ghost predicate IsTrail(g: Graph, active: set<string>, trail: seq<string>, name: string)
  {
    && (forall a :: a in active <==> a in trail)
    && (trail != [] ==> IsWalk(g, trail) && Edge(g, trail[|trail| - 1], name))
  }

  lemma {:induction false} TrailExtends(g: Graph, active: set<string>, trail: seq<string>, name: string, next: string)
    requires IsTrail(g, active, trail, name) && Edge(g, name, next)
    ensures IsTrail(g, active + {name}, trail + [name], next)
  {
    if trail != [] {
      WalkExtends(g, trail, name);
    } else {
      assert trail + [name] == [name];
    }
  }

  lemma {:induction false} TrailCloses(g: Graph, active: set<string>, trail: seq<string>, name: string)
    requires IsTrail(g, active, trail, name) && name in active
    ensures OnCycle(g, name)
  {
    var k :| 0 <= k < |trail| && trail[k] == name;
    WalkSuffix(g, trail, k);
    WalkExtends(g, trail[k..], name);
    assert IsWalkFromTo(g, trail[k..] + [name], name, name);
  }

  /** Everything the facade reaches is there, may be published, and is on no cycle. */
  ghost predicate Releasable(g: Graph)
  {
    forall x :: Reaches(g, FACADE, x) ==> x in g && IsPublic(g[x]) && !OnCycle(g, x)
  }

  /** The release in an order: exactly what the facade reaches, dependencies first. */
  ghost predicate IsReleaseOrder(g: Graph, order: seq<Package>)
  {
    && Topological(order)
    && Drawn(g, order)
    && forall x :: x in Names(order) <==> Reaches(g, FACADE, x)
  }

  lemma {:induction false} OrderIsReleasable(g: Graph, order: seq<Package>)
    requires IsReleaseOrder(g, order)
    ensures Releasable(g)
  {
    forall x | Reaches(g, FACADE, x)
      ensures x in g && IsPublic(g[x]) && !OnCycle(g, x)
    {
      var i :| 0 <= i < |order| && order[i].name == x;
      if OnCycle(g, x) {
        var p :| IsWalkFromTo(g, p, x, x) && |p| >= 2;
        TopologicalIsAcyclic(g, order, p);
      }
    }
  }

  /** The packages to publish, in order; it succeeds exactly when the release can be ordered. */
  method PublicationOrder(metadata: seq<Package>) returns (result: Result<seq<Package>, Error>)
    ensures result.Success? ==> IsReleaseOrder(Index(metadata), result.value)
    ensures result.Failure? ==> Truthful(Index(metadata), FACADE, result.error)
    ensures result.Success? <==> Releasable(Index(metadata))
  {
    var packages := Index(metadata);
    var walk := new Walk(packages);
    var error := walk.Visit(FACADE, []);
    if error.Some? {
      return Failure(error.value);
    }
    forall x | Reaches(packages, FACADE, x)
      ensures x in Names(walk.ordered)
    {
      var p :| IsWalkFromTo(packages, p, FACADE, x);
      TopologicalWalk(packages, walk.ordered, p);
    }
    OrderIsReleasable(packages, walk.ordered);
    return Success(walk.ordered);
  }
}
