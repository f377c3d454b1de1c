/**
 Which workspace packages a change affects: the owners of the changed paths and everything that
 depends on them, and the package selectors that hosted Rust checks run with.
 */
module PackageClosure {
  import opened Wrappers

  datatype Package = Package(name: string, directory: string, dependencies: set<string>)

  ghost function Names(packages: seq<Package>): set<string>
  {
    set i | 0 <= i < |packages| :: packages[i].name
  }

  // ---------------------------------------------------------------- paths

  /** The parts of a path between its slashes. */
  function Parts(path: string, part: string := ""): (parts: seq<string>)
    ensures parts != []
  {
    if path == "" then [part]
    else if path[0] == '/' then [part] + Parts(path[1..])
    else Parts(path[1..], part + [path[0]])
  }

  /** Parts with slashes between them. */
  ghost function Joined(parts: seq<string>): string
    requires parts != []
  {
    if |parts| == 1 then parts[0] else parts[0] + "/" + Joined(parts[1..])
  }

  lemma {:induction false} PartsJoin(path: string, part: string)
    requires '/' !in part
    ensures Joined(Parts(path, part)) == part + path
    ensures forall i :: 0 <= i < |Parts(path, part)| ==> '/' !in Parts(path, part)[i]
  {
    if path == "" {
    } else if path[0] == '/' {
      PartsJoin(path[1..], "");
      assert Parts(path, part)[1..] == Parts(path[1..]);
      assert path == "/" + path[1..];
    } else {
      PartsJoin(path[1..], part + [path[0]]);
      assert part + [path[0]] + path[1..] == part + path;
    }
  }

  /** A path is the join of its parts, which have no slashes. */
  lemma {:induction false} PathIsItsParts(path: string)
    ensures Joined(Parts(path)) == path
    ensures forall i :: 0 <= i < |Parts(path)| ==> '/' !in Parts(path)[i]
  {
    PartsJoin(path, "");
    assert "" + path == path;
  }

  lemma {:induction false} PartsOfBoth(a: string, b: string, part: string)
    ensures Parts(a + "/" + b, part) == Parts(a, part) + Parts(b)
  {
    var path := a + "/" + b;
    if a == "" {
      assert path[0] == '/' && path[1..] == b;
    } else {
      assert path[0] == a[0] && path[1..] == a[1..] + "/" + b;
      if a[0] == '/' {
        PartsOfBoth(a[1..], b, "");
      } else {
        PartsOfBoth(a[1..], b, part + [a[0]]);
      }
    }
  }

  lemma {:induction false} JoinedBoth(a: seq<string>, b: seq<string>)
    requires a != [] && b != []
    ensures Joined(a + b) == Joined(a) + "/" + Joined(b)
  {
    if |a| == 1 {
      assert (a + b)[1..] == b;
    } else {
      assert (a + b)[1..] == a[1..] + b;
      JoinedBoth(a[1..], b);
    }
  }

  /** The path leads into the directory: it has its parts and more. */
  ghost predicate Inside(path: string, directory: string)
  {
    Parts(directory) < Parts(path)
  }

  /** That is so exactly if the directory and a slash are a prefix of the path. */
  lemma {:induction false} InsideIsPrefix(path: string, directory: string)
    ensures StartsWith(path, directory + "/") <==> Inside(path, directory)
  {
    PathIsItsParts(path);
    PathIsItsParts(directory);
    if StartsWith(path, directory + "/") {
      var rest := path[|directory| + 1..];
      assert path == directory + "/" + rest;
      PartsOfBoth(directory, rest, "");
    }
    if Inside(path, directory) {
      var rest := Parts(path)[|Parts(directory)|..];
      assert Parts(path) == Parts(directory) + rest;
      JoinedBoth(Parts(directory), rest);
      assert (directory + "/" + Joined(rest))[..|directory| + 1] == directory + "/";
    }
  }

  // ---------------------------------------------------------------- ownership

  predicate StartsWith(s: string, prefix: string)
  {
    |prefix| <= |s| && s[..|prefix|] == prefix
  }

  predicate EndsWith(s: string, suffix: string)
  {
    |suffix| <= |s| && s[|s| - |suffix|..] == suffix
  }

  predicate Contains(package: Package, path: string)
  {
    path == package.directory || StartsWith(path, package.directory + "/")
  }

  /** The package with the longest directory that contains the path; the first of equals. */
  function Owner(path: string, packages: seq<Package>): (owner: Option<Package>)
    ensures owner.Some? ==> owner.value in packages && Contains(owner.value, path)
  {
    if packages == [] then None
    else
      var before, last := Owner(path, packages[..|packages| - 1]), packages[|packages| - 1];
      if Contains(last, path) && (before.None? || |before.value.directory| < |last.directory|) then Some(last)
      else before
  }

  /** The package's directory is the path or leads to it. */
  ghost predicate Holds(package: Package, path: string)
  {
    Parts(package.directory) <= Parts(path)
  }

  lemma {:induction false} ContainsHolds(package: Package, path: string)
    ensures Contains(package, path) <==> Holds(package, path)
  {
    InsideIsPrefix(path, package.directory);
    PathIsItsParts(path);
    PathIsItsParts(package.directory);
    assert Holds(package, path) <==> Inside(path, package.directory) || Parts(package.directory) == Parts(path);
    assert Parts(package.directory) == Parts(path) <==> package.directory == path;
  }

  lemma {:induction false} LongestContains(path: string, packages: seq<Package>, i: nat)
    requires i < |packages| && Contains(packages[i], path)
    ensures var owner := Owner(path, packages);
            owner.Some? && |packages[i].directory| <= |owner.value.directory|
  {
    var init := packages[..|packages| - 1];
    if i < |init| {
      LongestContains(path, init, i);
    }
  }

  lemma {:induction false} LongerPartsLonger(a: seq<string>, b: seq<string>)
    requires a != [] && a < b
    ensures |Joined(a)| < |Joined(b)|
  {
    assert b == a + b[|a|..];
    JoinedBoth(a, b[|a|..]);
  }

  lemma {:induction false} FirstOfLongest(path: string, packages: seq<Package>)
    requires Owner(path, packages).Some?
    ensures exists k :: 0 <= k < |packages| && Owner(path, packages) == Some(packages[k])
                        && forall i :: 0 <= i < k && Contains(packages[i], path) ==>
                                         |packages[i].directory| < |packages[k].directory|
  {
    var init, n := packages[..|packages| - 1], |packages| - 1;
    if Owner(path, init) == Owner(path, packages) && Owner(path, init).Some? {
      FirstOfLongest(path, init);
      var k :| 0 <= k < n && Owner(path, init) == Some(init[k])
               && forall i :: 0 <= i < k && Contains(init[i], path) ==> |init[i].directory| < |init[k].directory|;
      assert forall i :: 0 <= i < k ==> init[i] == packages[i];
    } else {
      forall i | 0 <= i < n && Contains(packages[i], path)
        ensures |packages[i].directory| < |packages[n].directory|
      {
        LongestContains(path, init, i);
      }
    }
  }

  /** Package `k` is the first whose directory leads to the path, or to the directory of any other that does. */
  ghost predicate Owns(packages: seq<Package>, k: nat, path: string)
  {
    && k < |packages| && Holds(packages[k], path)
    && (forall i :: 0 <= i < |packages| && Holds(packages[i], path) ==>
                      Parts(packages[i].directory) <= Parts(packages[k].directory))
    && forall i :: 0 <= i < k && Holds(packages[i], path) ==> packages[i].directory != packages[k].directory
  }

  /** The owner of a path is the package in the innermost directory that leads to it. */
  lemma {:induction false} OwnerIsLongest(path: string, packages: seq<Package>)
    ensures if exists i :: 0 <= i < |packages| && Holds(packages[i], path) then
              exists k: nat :: Owns(packages, k, path) && Owner(path, packages) == Some(packages[k])
            else Owner(path, packages) == None
  {
    forall i | 0 <= i < |packages|
      ensures Contains(packages[i], path) <==> Holds(packages[i], path)
      ensures Contains(packages[i], path) ==>
                Owner(path, packages).Some? && |packages[i].directory| <= |Owner(path, packages).value.directory|
    {
      ContainsHolds(packages[i], path);
      if Contains(packages[i], path) {
        LongestContains(path, packages, i);
      }
    }
    if Owner(path, packages).Some? {
      FirstOfLongest(path, packages);
      var k :| 0 <= k < |packages| && Owner(path, packages) == Some(packages[k])
               && forall i :: 0 <= i < k && Contains(packages[i], path) ==>
                                |packages[i].directory| < |packages[k].directory|;
      hide Owner, Contains;
      forall i | 0 <= i < |packages| && Holds(packages[i], path)
        ensures Parts(packages[i].directory) <= Parts(packages[k].directory)
      {
        ShorterLeads(packages[i].directory, packages[k].directory, path);
      }
      assert Owns(packages, k, path);
    }
  }

  lemma {:induction false} ShorterLeads(a: string, b: string, path: string)
    requires Parts(a) <= Parts(path) && Parts(b) <= Parts(path) && |a| <= |b|
    ensures Parts(a) <= Parts(b)
  {
    PathIsItsParts(a);
    PathIsItsParts(b);
    if Parts(b) < Parts(a) {
      LongerPartsLonger(Parts(b), Parts(a));
    }
  }

  const WORKSPACE_FILES := {"Cargo.toml", "Cargo.lock"}

  /** The packages changed directly: all of them if the workspace files change. */
  ghost function Direct(paths: set<string>, packages: seq<Package>): set<string>
  {
    if paths * WORKSPACE_FILES != {} then Names(packages)
    else set path | path in paths && Owner(path, packages).Some? :: Owner(path, packages).value.name
  }

  ghost function PathSet(paths: seq<string>): set<string>
  {
    set i | 0 <= i < |paths| :: paths[i]
  }

  method DirectPackages(paths: seq<string>, packages: seq<Package>) returns (selected: set<string>)
    ensures selected == Direct(PathSet(paths), packages)
  {
    if exists i :: 0 <= i < |paths| && paths[i] in WORKSPACE_FILES {
      ghost var i :| 0 <= i < |paths| && paths[i] in WORKSPACE_FILES;
      assert paths[i] in PathSet(paths) * WORKSPACE_FILES;
      return set i | 0 <= i < |packages| :: packages[i].name;
    }
    selected := {};
    for k := 0 to |paths|
      invariant selected == set path | path in PathSet(paths[..k]) && Owner(path, packages).Some? ::
                Owner(path, packages).value.name
    {
      PathSetNext(paths, k);
      var owner := Owner(paths[k], packages);
      if owner.Some? {
        selected := selected + {owner.value.name};
      }
    }
    assert paths[..|paths|] == paths;
  }

  lemma {:induction false} PathSetNext(paths: seq<string>, k: nat)
    requires k < |paths|
    ensures PathSet(paths[..k + 1]) == PathSet(paths[..k]) + {paths[k]}
  {
    assert paths[..k + 1] == paths[..k] + [paths[k]];
    forall path | path in PathSet(paths[..k]) + {paths[k]}
      ensures path in PathSet(paths[..k + 1])
    {
      if path == paths[k] {
        assert paths[..k + 1][k] == path;
      } else {
        var i :| 0 <= i < k && paths[..k][i] == path;
        assert paths[..k + 1][i] == path;
      }
    }
  }

  // ---------------------------------------------------------------- dependents

  ghost predicate DependsOn(packages: seq<Package>, a: string, b: string)
  {
    exists i :: 0 <= i < |packages| && packages[i].name == a && b in packages[i].dependencies
  }

  /** A walk along dependencies, from a package down to one it depends on. */
  ghost predicate IsWalk(packages: seq<Package>, p: seq<string>)
  {
    p != [] && (|p| == 1 || (DependsOn(packages, p[0], p[1]) && IsWalk(packages, p[1..])))
  }

  /** `name` is a seed or depends on one, directly or through others. */
  ghost predicate ReachesSeed(packages: seq<Package>, name: string, seeds: set<string>)
  {
    exists p :: IsWalk(packages, p) && p[0] == name && p[|p| - 1] in seeds
  }

  /** With any package in the set, everything that depends on it is in the set. */
  ghost predicate ClosedUnderDependents(packages: seq<Package>, names: set<string>)
  {
    forall i :: 0 <= i < |packages| && packages[i].dependencies * names != {} ==> packages[i].name in names
  }

  /** The seeds and all their dependents. */
  ghost predicate IsClosure(packages: seq<Package>, seeds: set<string>, closure: set<string>)
  {
    forall name :: name in closure <==> ReachesSeed(packages, name, seeds)
  }

  lemma {:induction false} SeedsReach(packages: seq<Package>, seeds: set<string>, name: string)
    requires name in seeds
    ensures ReachesSeed(packages, name, seeds)
  {
    assert IsWalk(packages, [name]);
  }

  lemma {:induction false} DependentReaches(packages: seq<Package>, seeds: set<string>, a: string, b: string)
    requires DependsOn(packages, a, b) && ReachesSeed(packages, b, seeds)
    ensures ReachesSeed(packages, a, seeds)
  {
    var p :| IsWalk(packages, p) && p[0] == b && p[|p| - 1] in seeds;
    assert ([a] + p)[1..] == p;
    assert IsWalk(packages, [a] + p);
  }

  /** A closed set that holds the end of a walk holds its start. */
  lemma {:induction false} ClosedHoldsWalk(packages: seq<Package>, names: set<string>, p: seq<string>)
    requires ClosedUnderDependents(packages, names) && IsWalk(packages, p) && p[|p| - 1] in names
    ensures p[0] in names
  {
    if |p| > 1 {
      ClosedHoldsWalk(packages, names, p[1..]);
      var i :| 0 <= i < |packages| && packages[i].name == p[0] && p[1] in packages[i].dependencies;
      assert p[1] in packages[i].dependencies * names;
    }
  }

  /** Any closed set with the seeds contains the closure: the closure is the least. */
  lemma {:induction false} ClosureIsLeast(
    packages: seq<Package>, seeds: set<string>, closure: set<string>, names: set<string>)
    requires IsClosure(packages, seeds, closure)
    requires ClosedUnderDependents(packages, names) && seeds <= names
    ensures closure <= names
  {
    forall name | name in closure
      ensures name in names
    {
      var p :| IsWalk(packages, p) && p[0] == name && p[|p| - 1] in seeds;
      ClosedHoldsWalk(packages, names, p);
    }
  }

  lemma {:induction false} ClosureIsClosed(packages: seq<Package>, seeds: set<string>, closure: set<string>)
    requires IsClosure(packages, seeds, closure)
    ensures ClosedUnderDependents(packages, closure) && seeds <= closure
  {
    forall i | 0 <= i < |packages| && packages[i].dependencies * closure != {}
      ensures packages[i].name in closure
    {
      var b :| b in packages[i].dependencies * closure;
      assert DependsOn(packages, packages[i].name, b);
      DependentReaches(packages, seeds, packages[i].name, b);
    }
    forall name | name in seeds
      ensures name in closure
    {
      SeedsReach(packages, seeds, name);
    }
  }

  /** The seeds and only what depends on them. */
  ghost predicate AllReach(packages: seq<Package>, names: set<string>, seeds: set<string>)
  {
    seeds <= names && forall name :: name in names ==> ReachesSeed(packages, name, seeds)
  }

  lemma {:induction false} SeedsAllReach(packages: seq<Package>, seeds: set<string>)
    ensures AllReach(packages, seeds, seeds)
  {
    forall name | name in seeds
      ensures ReachesSeed(packages, name, seeds)
    {
      SeedsReach(packages, seeds, name);
    }
  }

  lemma {:induction false} NextReaches(packages: seq<Package>, names: set<string>, seeds: set<string>, i: nat)
    requires AllReach(packages, names, seeds) && i < |packages| && packages[i].dependencies * names != {}
    ensures AllReach(packages, names + {packages[i].name}, seeds)
  {
    var b :| b in packages[i].dependencies * names;
    assert DependsOn(packages, packages[i].name, b);
    DependentReaches(packages, seeds, packages[i].name, b);
  }

  lemma {:induction false} ClosedIsClosure(packages: seq<Package>, names: set<string>, seeds: set<string>)
    requires AllReach(packages, names, seeds) && ClosedUnderDependents(packages, names)
    ensures IsClosure(packages, seeds, names)
  {
    forall name | ReachesSeed(packages, name, seeds)
      ensures name in names
    {
      var p :| IsWalk(packages, p) && p[0] == name && p[|p| - 1] in seeds;
      ClosedHoldsWalk(packages, names, p);
    }
  }

  /** Grows the selection until a whole pass over the packages adds nothing. */
  method ReverseDependencyClosure(selected: set<string>, packages: seq<Package>) returns (closure: set<string>)
    ensures IsClosure(packages, selected, closure)
  {
    hide AllReach, IsClosure;
    closure := selected;
    SeedsAllReach(packages, selected);
    var changed := true;
    while changed
      invariant AllReach(packages, closure, selected)
      invariant !changed ==> ClosedUnderDependents(packages, closure)
      decreases |Names(packages) - closure|, changed
    {
      changed := false;
      ghost var before := closure;
      for i := 0 to |packages|
        invariant AllReach(packages, closure, selected)
        invariant if changed then |Names(packages) - closure| < |Names(packages) - before| else closure == before
        invariant !changed ==>
                    forall k :: 0 <= k < i && packages[k].dependencies * closure != {} ==> packages[k].name in closure
      {
        var package := packages[i];
        if package.name !in closure && package.dependencies * closure != {} {
          NextReaches(packages, closure, selected, i);
          Shrinks(Names(packages), closure, package.name);
          closure := closure + {package.name};
          changed := true;
        }
      }
    }
    ClosedIsClosure(packages, closure, selected);
  }

  lemma {:induction false} Shrinks(all: set<string>, closure: set<string>, name: string)
    requires name in all && name !in closure
    ensures |all - (closure + {name})| < |all - closure|
  {
    assert all - closure == (all - (closure + {name})) + {name};
  }

  // ---------------------------------------------------------------- affected packages

  /** The packages a change affects. */
  ghost predicate IsAffected(paths: set<string>, packages: seq<Package>, name: string)
  {
    ReachesSeed(packages, name, Direct(paths, packages))
  }

  lemma {:induction false} DirectUnion(p: set<string>, q: set<string>, packages: seq<Package>)
    ensures Direct(p + q, packages) == Direct(p, packages) + Direct(q, packages)
  {
    if p * WORKSPACE_FILES != {} || q * WORKSPACE_FILES != {} {
      OwnersAreNames(p, packages);
      OwnersAreNames(q, packages);
      assert (p + q) * WORKSPACE_FILES == p * WORKSPACE_FILES + q * WORKSPACE_FILES;
    }
  }

  lemma {:induction false} OwnersAreNames(paths: set<string>, packages: seq<Package>)
    ensures Direct(paths, packages) <= Names(packages)
  {
  }

  /** Two changes together affect what each affects: a change can be checked in parts. */
  lemma {:induction false} AffectedUnion(p: set<string>, q: set<string>, packages: seq<Package>, name: string)
    ensures IsAffected(p + q, packages, name) <==> IsAffected(p, packages, name) || IsAffected(q, packages, name)
  {
    DirectUnion(p, q, packages);
    var a, b := Direct(p, packages), Direct(q, packages);
    if ReachesSeed(packages, name, a + b) {
      var w :| IsWalk(packages, w) && w[0] == name && w[|w| - 1] in a + b;
      assert w[|w| - 1] in a ==> ReachesSeed(packages, name, a);
      assert w[|w| - 1] in b ==> ReachesSeed(packages, name, b);
    }
    if ReachesSeed(packages, name, a) {
      var w :| IsWalk(packages, w) && w[0] == name && w[|w| - 1] in a;
      assert w[|w| - 1] in a + b;
    }
    if ReachesSeed(packages, name, b) {
      var w :| IsWalk(packages, w) && w[0] == name && w[|w| - 1] in b;
      assert w[|w| - 1] in a + b;
    }
  }

  // ---------------------------------------------------------------- selectors of the hosted checks

  predicate Canonical(path: string)
  {
    && path != ""
    && '\\' !in path
    && (forall i :: 0 <= i < |Parts(path)| ==> Parts(path)[i] !in {"", ".", ".."})
    && forall i :: 0 <= i < |path| ==> ' ' <= path[i]
  }

  function FileName(path: string): string
  {
    var parts := Parts(path);
    parts[|parts| - 1]
  }

  const DOCUMENT_NAMES: set<string> :=
    {"README.md", "AGENTS.md", "CHANGELOG.md", "CODE_OF_CONDUCT.md", "CONTRIBUTING.md", "GOVERNANCE.md",
     "LICENSE", "NOTICE", "SECURITY.md"}

  predicate IsDocumentation(path: string)
  {
    || StartsWith(path, "docs/") || StartsWith(path, "rfcs/") || StartsWith(path, ".github/ISSUE_TEMPLATE/")
    || path == ".github/pull_request_template.md"
    || FileName(path) in DOCUMENT_NAMES
  }

  predicate IsProse(path: string)
  {
    StartsWith(path, "docs/") || StartsWith(path, "rfcs/")
  }

  /** What these tests say of the parts of a path. */
  lemma {:induction false} PathKinds(path: string)
    ensures IsProse(path) <==> Inside(path, "docs") || Inside(path, "rfcs")
    ensures IsDocumentation(path) <==>
            || Inside(path, "docs") || Inside(path, "rfcs") || Inside(path, ".github/ISSUE_TEMPLATE")
            || path == ".github/pull_request_template.md"
            || Parts(path)[|Parts(path)| - 1] in
               {"README.md", "AGENTS.md", "CHANGELOG.md", "CODE_OF_CONDUCT.md", "CONTRIBUTING.md", "GOVERNANCE.md",
                "LICENSE", "NOTICE", "SECURITY.md"}
  {
    InsideIsPrefix(path, "docs");
    InsideIsPrefix(path, "rfcs");
    InsideIsPrefix(path, ".github/ISSUE_TEMPLATE");
    assert "docs" + "/" == "docs/" && "rfcs" + "/" == "rfcs/";
    assert ".github/ISSUE_TEMPLATE" + "/" == ".github/ISSUE_TEMPLATE/";
  }

  predicate IsPythonSource(path: string)
  {
    || (StartsWith(path, "bindings/python/") && (EndsWith(FileName(path), ".py") || EndsWith(FileName(path), ".pyi")))
    || (StartsWith(path, "examples/python/") && EndsWith(path, ".py"))
  }

  /** A Python source of the bindings or of the examples. */
  lemma {:induction false} PythonSources(path: string)
    ensures IsPythonSource(path) <==>
            || (Inside(path, "bindings/python") && (EndsWith(path, ".py") || EndsWith(path, ".pyi")))
            || (Inside(path, "examples/python") && EndsWith(path, ".py"))
  {
    InsideIsPrefix(path, "bindings/python");
    InsideIsPrefix(path, "examples/python");
    assert "bindings/python" + "/" == "bindings/python/" && "examples/python" + "/" == "examples/python/";
    if EndsWith(path, ".py") {
      FileNameEnds(path, ".py");
    }
    if EndsWith(path, ".pyi") {
      FileNameEnds(path, ".pyi");
    }
    NameEndsPath(path, ".py");
    NameEndsPath(path, ".pyi");
  }

  lemma {:induction false} NameEndsPath(path: string, suffix: string)
    requires '/' !in suffix
    ensures EndsWith(FileName(path), suffix) ==> EndsWith(path, suffix)
  {
    LastPart(path, "");
    var name := FileName(path);
    if '/' !in path {
      assert "" + path == path;
    }
  }

  /** A path that stays inside: its parts are names, and its characters can be shown. */
  lemma {:induction false} CanonicalPaths(path: string)
    ensures Canonical(path) <==>
            && (forall part :: part in Parts(path) ==> part != "" && part != "." && part != "..")
            && forall c :: c in path ==> c >= ' ' && c != '\\'
  {
    assert Parts("") == [""];
    assert forall i :: 0 <= i < |path| ==> path[i] in path;
    assert forall i :: 0 <= i < |Parts(path)| ==> Parts(path)[i] in Parts(path);
    assert path == "" ==> Parts(path)[0] == "";
  }

  const FACADE := "eqiora"
  const PYTHON := "eqiora-python"

  /** The checks run on the whole workspace, or on the named packages. */
  datatype Selectors = Workspace | Packages(names: set<string>)

  /** What one changed path contributes: nothing known, nothing, a source, or fixed consumers. */
  datatype Contribution = Widen | Skip | Contributes(source: bool, consumers: set<string>)

  ghost function ContributionOf(path: string, packages: seq<Package>): Contribution
  {
    var names, owned := Names(packages), Direct({path}, packages) != {};
    if !Canonical(path) then Widen
    else if IsProse(path) then Skip
    else if IsDocumentation(path) && ('/' !in path || owned || path == "examples/README.md") then
      (if owned then Contributes(true, {}) else Skip)
    else if IsPythonSource(path) then
      (if {PYTHON, FACADE} <= names then Contributes(false, {PYTHON, FACADE}) else Widen)
    else if FileName(path) == "build.rs" || !EndsWith(path, ".rs") || !owned then Widen
    else if StartsWith(path, "crates/eqiora-python/") then
      (if FACADE in names then Contributes(true, {FACADE}) else Widen)
    else Contributes(true, {})
  }

  ghost function Sources(paths: set<string>, packages: seq<Package>): set<string>
  {
    set path | path in paths && ContributionOf(path, packages).Contributes? && ContributionOf(path, packages).source
  }

  ghost function Consumers(paths: set<string>, packages: seq<Package>): set<string>
  {
    set path, name | path in paths && ContributionOf(path, packages).Contributes?
                     && name in ContributionOf(path, packages).consumers :: name
  }

  ghost predicate MustWiden(paths: set<string>, packages: seq<Package>)
  {
    || (exists path :: path in paths && ContributionOf(path, packages).Widen?)
    || forall path :: path in paths ==> ContributionOf(path, packages).Skip?
  }

  lemma {:induction false} SourcesNext(paths: set<string>, path: string, packages: seq<Package>)
    ensures var c := ContributionOf(path, packages);
            && Sources(paths + {path}, packages)
            == Sources(paths, packages) + (if c.Contributes? && c.source then {path} else {})
            && Consumers(paths + {path}, packages)
            == Consumers(paths, packages) + (if c.Contributes? then c.consumers else {})
  {
  }

  /** Selects the owners of the changed sources and their dependents; anything else widens. */
  method PackageSelectors(paths: seq<string>, packages: seq<Package>, unsafeMode: bool) returns (result: Selectors)
    ensures result.Workspace? <==> unsafeMode || MustWiden(PathSet(paths), packages)
    ensures result.Packages? ==>
              IsClosure(packages,
                        Direct(Sources(PathSet(paths), packages), packages) + Consumers(PathSet(paths), packages),
                        result.names)
  {
    if unsafeMode {
      return Workspace;
    }
    var names := set i | 0 <= i < |packages| :: packages[i].name;
    var sources: seq<string>, consumers: set<string> := [], {};
    for i := 0 to |paths|
      invariant forall path :: path in PathSet(paths[..i]) ==> !ContributionOf(path, packages).Widen?
      invariant PathSet(sources) == Sources(PathSet(paths[..i]), packages)
      invariant consumers == Consumers(PathSet(paths[..i]), packages)
      invariant sources == [] && consumers == {} ==>
                  forall path :: path in PathSet(paths[..i]) ==> ContributionOf(path, packages).Skip?
    {
      var path := paths[i];
      PathSetNext(paths, i);
      PathSetPrefix(paths, i);
      SourcesNext(PathSet(paths[..i]), path, packages);
      AppendPath(sources, path);
      hide ContributionOf;
      var contribution := Contribute(path, packages, names);
      match contribution
      case Widen =>
        return Workspace;
      case Skip =>
      case Contributes(source, more) =>
        sources := if source then sources + [path] else sources;
        consumers := consumers + more;
    }
    assert paths[..|paths|] == paths;
    if sources == [] && consumers == {} {
      return Workspace;
    }
    SomeContribution(PathSet(paths), packages, sources, consumers);
    var owners := DirectPackages(sources, packages);
    var selected := ReverseDependencyClosure(owners + consumers, packages);
    return Packages(selected);
  }

  /** What one path asks for: the rules in the order they are tried. */
  method Contribute(path: string, packages: seq<Package>, names: set<string>) returns (contribution: Contribution)
    requires names == Names(packages)
    ensures contribution == ContributionOf(path, packages)
    ensures contribution.Contributes? ==> contribution.source || contribution.consumers != {}
  {
    if !Canonical(path) {
      return Widen;
    }
    if IsProse(path) {
      return Skip;
    }
    var owners := DirectPackages([path], packages);
    assert PathSet([path]) == {path} by {
      PathSetNext([path], 0);
      assert [path][..1] == [path] && PathSet([path][..0]) == {};
    }
    if IsDocumentation(path) && ('/' !in path || owners != {} || path == "examples/README.md") {
      return if owners != {} then Contributes(true, {}) else Skip;
    }
    if IsPythonSource(path) {
      return if {PYTHON, FACADE} <= names then Contributes(false, {PYTHON, FACADE}) else Widen;
    }
    if FileName(path) == "build.rs" || !EndsWith(path, ".rs") || owners == {} {
      return Widen;
    }
    if StartsWith(path, "crates/eqiora-python/") {
      return if FACADE in names then Contributes(true, {FACADE}) else Widen;
    }
    return Contributes(true, {});
  }

  lemma {:induction false} PathSetPrefix(paths: seq<string>, k: nat)
    requires k < |paths|
    ensures paths[k] in PathSet(paths) && PathSet(paths[..k]) <= PathSet(paths)
  {
    forall path | path in PathSet(paths[..k])
      ensures path in PathSet(paths)
    {
      var i :| 0 <= i < k && paths[..k][i] == path;
      assert paths[i] == path;
    }
  }

  lemma {:induction false} AppendPath(sources: seq<string>, path: string)
    ensures PathSet(sources + [path]) == PathSet(sources) + {path}
  {
    PathSetNext(sources + [path], |sources|);
    assert (sources + [path])[..|sources|] == sources && (sources + [path])[..|sources| + 1] == sources + [path];
  }

  lemma {:induction false} SomeContribution(
    paths: set<string>, packages: seq<Package>, sources: seq<string>, consumers: set<string>)
    requires PathSet(sources) == Sources(paths, packages) && consumers == Consumers(paths, packages)
    requires sources != [] || consumers != {}
    ensures exists path :: path in paths && !ContributionOf(path, packages).Skip?
  {
    if sources != [] {
      assert sources[0] in PathSet(sources);
    } else {
      var name :| name in consumers;
    }
  }

  /** The file name is what follows the last slash. */
  lemma {:induction false} LastPart(path: string, part: string)
    ensures var parts := Parts(path, part);
            var last := parts[|parts| - 1];
            if '/' !in path then last == part + path
            else |last| < |path| && last == path[|path| - |last|..] && path[|path| - |last| - 1] == '/' && '/' !in last
  {
    if path == "" {
    } else {
      if path[0] == '/' {
        LastPart(path[1..], "");
      } else {
        LastPart(path[1..], part + [path[0]]);
        assert part + [path[0]] + path[1..] == part + path;
      }
    }
  }

  lemma {:induction false} FileNameBehindSlash(directory: string, name: string)
    requires '/' !in name
    ensures FileName(directory + "/" + name) == name
  {
    var path := directory + "/" + name;
    LastPart(path, "");
    var last := FileName(path);
    assert path[|directory|] == '/';
    assert path[|path| - |name|..] == name;
  }

  lemma {:induction false} FileNameEnds(path: string, suffix: string)
    requires EndsWith(path, suffix) && '/' !in suffix
    ensures EndsWith(FileName(path), suffix)
  {
    LastPart(path, "");
    var name := FileName(path);
    if '/' in path {
      assert forall i :: 0 <= i < |suffix| ==> path[|path| - |suffix| + i] == suffix[i] != '/';
      assert |suffix| <= |name|;
    } else {
      assert "" + path == path;
    }
  }

  lemma {:induction false} SourceIsNoDocument(name: string)
    requires EndsWith(name, ".rs") || EndsWith(name, ".py") || EndsWith(name, ".pyi")
    ensures name !in DOCUMENT_NAMES
  {
    assert name[|name| - 1] in {'s', 'y', 'i'};
    assert forall n :: n in DOCUMENT_NAMES ==> n[|n| - 1] in {'d', 'E'};
  }

  lemma {:induction false} RustIsNotPython(path: string)
    requires EndsWith(path, ".rs")
    ensures !IsPythonSource(path) && path !in WORKSPACE_FILES && FileName(path) !in DOCUMENT_NAMES
  {
    FileNameEnds(path, ".rs");
    SourceIsNoDocument(FileName(path));
    assert path[|path| - 1] == 's' && FileName(path)[|FileName(path)| - 1] == 's';
  }

  lemma {:induction false} AdapterIsNotDocumentation(path: string)
    requires StartsWith(path, "crates/eqiora-python/") && FileName(path) !in DOCUMENT_NAMES
    ensures !IsDocumentation(path)
  {
    assert path[0] == 'c';
  }

  lemma {:induction false} RustPathContributes(path: string, packages: seq<Package>)
    requires EndsWith(path, ".rs") && !IsProse(path) && !ContributionOf(path, packages).Widen?
    ensures Owner(path, packages).Some?
    ensures var c := ContributionOf(path, packages);
            c.Contributes? && c.source && (StartsWith(path, "crates/eqiora-python/") ==> FACADE in c.consumers)
  {
    RustIsNotPython(path);
    if StartsWith(path, "crates/eqiora-python/") {
      AdapterIsNotDocumentation(path);
    }
    assert path[|path| - 1] == 's' && "examples/README.md"[17] == 'd';
    if '/' !in path {
      TopLevelIsNotDocumentation(path);
    }
    hide IsPythonSource, FileName, Canonical, StartsWith, EndsWith, IsDocumentation;
    assert {path} * WORKSPACE_FILES == {};
  }

  lemma {:induction false} PrefixMember(path: string, prefix: string, i: nat)
    requires StartsWith(path, prefix) && i < |prefix| && prefix[i] == '/'
    ensures '/' in path
  {
    assert path[i] == path[..|prefix|][i];
  }

  lemma {:induction false} TopLevelIsNotDocumentation(path: string)
    requires '/' !in path && FileName(path) !in DOCUMENT_NAMES
    ensures !IsDocumentation(path)
  {
    hide StartsWith, FileName;
    if StartsWith(path, "docs/") {
      PrefixMember(path, "docs/", 4);
    } else if StartsWith(path, "rfcs/") {
      PrefixMember(path, "rfcs/", 4);
    } else if StartsWith(path, ".github/ISSUE_TEMPLATE/") {
      PrefixMember(path, ".github/ISSUE_TEMPLATE/", 7);
    }
    assert ".github/pull_request_template.md"[7] == '/';
  }

  lemma {:induction false} PythonIsNotDocumentation(path: string)
    requires IsPythonSource(path)
    ensures !IsProse(path) && !IsDocumentation(path)
  {
    if EndsWith(path, ".py") {
      FileNameEnds(path, ".py");
    }
    SourceIsNoDocument(FileName(path));
    assert path[0] in {'b', 'e'};
  }

  lemma {:induction false} PythonPathContributes(path: string, packages: seq<Package>)
    requires IsPythonSource(path) && !ContributionOf(path, packages).Widen?
    ensures ContributionOf(path, packages) == Contributes(false, {PYTHON, FACADE})
  {
    PythonIsNotDocumentation(path);
    hide IsPythonSource, FileName, Canonical, StartsWith, EndsWith, IsDocumentation, IsProse, Direct;
  }

  lemma {:induction false} SourceOwner(sources: set<string>, packages: seq<Package>, path: string)
    requires path in sources && Owner(path, packages).Some?
    ensures Owner(path, packages).value.name in Direct(sources, packages)
  {
  }

  /**
   What a selection of packages is good for: it is closed under dependents, it has the owner of
   every changed Rust file outside the prose directories, the facade wherever the Python adapter
   changes, and both Python packages wherever Python sources change.
   */
  lemma {:induction false} SelectionCovers(paths: set<string>, packages: seq<Package>, names: set<string>, path: string)
    requires !MustWiden(paths, packages) && path in paths
    requires IsClosure(packages, Direct(Sources(paths, packages), packages) + Consumers(paths, packages), names)
    ensures ClosedUnderDependents(packages, names)
    ensures EndsWith(path, ".rs") && !IsProse(path) ==>
              Owner(path, packages).Some? && Owner(path, packages).value.name in names
    ensures StartsWith(path, "crates/eqiora-python/") && EndsWith(path, ".rs") ==> FACADE in names
    ensures IsPythonSource(path) ==> {PYTHON, FACADE} <= names
  {
    var sources := Sources(paths, packages);
    var seeds := Direct(sources, packages) + Consumers(paths, packages);
    ClosureIsClosed(packages, seeds, names);
    assert !ContributionOf(path, packages).Widen?;
    hide ContributionOf, ClosedUnderDependents, IsClosure, IsPythonSource, StartsWith, EndsWith, IsProse, Owner, Direct;
    if StartsWith(path, "crates/eqiora-python/") {
      AdapterIsNotProse(path);
    }
    if EndsWith(path, ".rs") && !IsProse(path) {
      RustPathContributes(path, packages);
      SourceOwner(sources, packages, path);
    }
    if StartsWith(path, "crates/eqiora-python/") && EndsWith(path, ".rs") {
      ConsumerIncluded(paths, packages, path, FACADE);
    }
    if IsPythonSource(path) {
      PythonPathContributes(path, packages);
      ConsumerIncluded(paths, packages, path, FACADE);
      ConsumerIncluded(paths, packages, path, PYTHON);
    }
  }

  lemma {:induction false} AdapterIsNotProse(path: string)
    requires StartsWith(path, "crates/eqiora-python/")
    ensures !IsProse(path)
  {
    assert path[0] == 'c';
  }

  lemma {:induction false} ConsumerIncluded(paths: set<string>, packages: seq<Package>, path: string, name: string)
    requires path in paths
    requires ContributionOf(path, packages).Contributes? && name in ContributionOf(path, packages).consumers
    ensures name in Consumers(paths, packages)
  {
  }
}
