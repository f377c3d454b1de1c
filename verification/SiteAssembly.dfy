/**
 The manifest of the assembled site and the copy loop: destinations that a case-folding file
 system could confuse are rejected first, so that every file can then be created exclusively.

 A destination is its list of path parts. `fold` is the portable form of a part (Unicode
 normalization and case folding), which this model leaves abstract. A file system is the
 function `same` by which it identifies parts: the identity if it is case-sensitive.
 */
module SiteAssembly {
  import opened Wrappers

  type Path = seq<string>

  type Fold = string -> string

  datatype Entry = Entry(source: string, destination: Path)

  datatype ManifestError = OutputCollision | PortableCollision | FileDirectoryCollision

  function Folded(fold: Fold, path: Path): (r: Path)
    ensures |r| == |path|
  {
    seq(|path|, i requires 0 <= i < |path| => fold(path[i]))
  }

  /** Where the entries go, up to the identification of parts. */
  function Targets(fold: Fold, entries: seq<Entry>): (r: seq<Path>)
    ensures |r| == |entries|
  {
    seq(|entries|, i requires 0 <= i < |entries| => Folded(fold, entries[i].destination))
  }

  /** Every entry is below the root. */
  ghost predicate SafeDestinations(entries: seq<Entry>)
  {
    forall i :: 0 <= i < |entries| ==> entries[i].destination != []
  }

  /** `parent` is a directory on the way to `path`, other than the root. */
  predicate IsParent(parent: Path, path: Path)
  {
    0 < |parent| < |path| && parent == path[..|parent|]
  }

  /** Two files can have these paths. */
  predicate Clear(left: Path, right: Path)
  {
    left != right && !IsParent(left, right) && !IsParent(right, left)
  }

  /** Files can have the first `n` paths together. */
  ghost predicate Apart(paths: seq<Path>, n: nat)
    requires n <= |paths|
  {
    forall i, j :: 0 <= i < j < n ==> Clear(paths[i], paths[j])
  }

  // ---------------------------------------------------------------- the manifest

  lemma {:induction false} FoldedPrefix(fold: Fold, path: Path, n: nat)
    requires n <= |path|
    ensures Folded(fold, path[..n]) == Folded(fold, path)[..n]
  {
  }

  /** The destinations taken and their portable forms refer to each other. */
  ghost predicate Tables(fold: Fold, exact: map<Path, string>, portable: map<Path, Path>)
  {
    && (forall path :: path in exact ==> Folded(fold, path) in portable)
    && forall key :: key in portable ==> portable[key] in exact && Folded(fold, portable[key]) == key
  }

  /** The portable forms taken are the first `n` targets. */
  ghost predicate Taken(targets: seq<Path>, n: nat, portable: map<Path, Path>)
    requires n <= |targets|
  {
    && (forall i :: 0 <= i < n ==> targets[i] in portable)
    && forall key :: key in portable ==> exists i :: 0 <= i < n && targets[i] == key
  }

  ghost predicate Distinct(targets: seq<Path>, n: nat)
    requires n <= |targets|
  {
    forall i, j :: 0 <= i < j < n ==> targets[i] != targets[j]
  }

  lemma {:induction false} EmptyTables(fold: Fold, targets: seq<Path>)
    ensures Tables(fold, map[], map[]) && Taken(targets, 0, map[]) && Distinct(targets, 0)
  {
  }

  /** The next target is new exactly if it is not in the table. */
  lemma {:induction false} NewTarget(targets: seq<Path>, n: nat, portable: map<Path, Path>)
    requires n < |targets| && Taken(targets, n, portable) && Distinct(targets, n)
    ensures targets[n] !in portable ==> Distinct(targets, n + 1)
    ensures targets[n] in portable ==> !Distinct(targets, |targets|)
  {
  }

  /** The two lookups together find exactly the portable forms that are taken. */
  lemma {:induction false} TablesAgree(
    fold: Fold, exact: map<Path, string>, portable: map<Path, Path>, destination: Path)
    requires Tables(fold, exact, portable)
    ensures var key := Folded(fold, destination);
            (destination in exact || (key in portable && portable[key] != destination)) <==> key in portable
  {
    hide Folded;
  }

  /** The first loop: it stops exactly if two destinations fold to the same target. */
  method Register(fold: Fold, entries: seq<Entry>)
    returns (error: Option<ManifestError>, exact: map<Path, string>, portable: map<Path, Path>)
    ensures error.None? <==> Distinct(Targets(fold, entries), |entries|)
    ensures error.Some? ==> !error.value.FileDirectoryCollision?
    ensures error.None? ==> Tables(fold, exact, portable) && Taken(Targets(fold, entries), |entries|, portable)
  {
    hide Folded, Tables, Taken, Distinct;
    ghost var targets := Targets(fold, entries);
    exact, portable := map[], map[];
    EmptyTables(fold, targets);
    for n := 0 to |entries|
      invariant Tables(fold, exact, portable) && Taken(targets, n, portable)
      invariant Distinct(targets, n)
    {
      var destination := entries[n].destination;
      var key := Folded(fold, destination);
      assert key == targets[n];
      NewTarget(targets, n, portable);
      TablesAgree(fold, exact, portable, destination);
      if destination in exact {
        return Some(OutputCollision), exact, portable;
      }
      if key in portable && portable[key] != destination {
        return Some(PortableCollision), exact, portable;
      }
      Registered(fold, targets, n, exact, portable, destination, entries[n].source);
      exact := exact[destination := entries[n].source];
      portable := portable[key := destination];
    }
    return None, exact, portable;
  }

  /** A destination that is new in both tables keeps them in step. */
  lemma {:induction false} Registered(
    fold: Fold, targets: seq<Path>, n: nat, exact: map<Path, string>, portable: map<Path, Path>,
    destination: Path, source: string)
    requires n < |targets| && targets[n] == Folded(fold, destination)
    requires Tables(fold, exact, portable) && Taken(targets, n, portable)
    requires targets[n] !in portable
    ensures Tables(fold, exact[destination := source], portable[targets[n] := destination])
    ensures Taken(targets, n + 1, portable[targets[n] := destination])
  {
    hide Folded;
  }

  /** The inner loop of the second pass: looks for a directory of the destination that is a file too. */
  method ParentTaken(fold: Fold, destination: Path, exact: map<Path, string>, portable: map<Path, Path>)
    returns (taken: bool)
    requires destination != [] && Tables(fold, exact, portable)
    ensures taken <==> exists key :: key in portable && IsParent(key, Folded(fold, destination))
  {
    ghost var target := Folded(fold, destination);
    for k := 1 to |destination|
      invariant forall l :: 1 <= l < k ==> target[..l] !in portable
    {
      FoldedPrefix(fold, destination, k);
      if destination[..k] in exact || Folded(fold, destination[..k]) in portable {
        assert IsParent(target[..k], target);
        return true;
      }
    }
    return false;
  }

  /** No target is a directory on the way to the path. */
  ghost predicate NoParent(targets: seq<Path>, path: Path)
  {
    forall i :: 0 <= i < |targets| ==> !IsParent(targets[i], path)
  }

  /** Accepts a list of entries exactly if files can have all the folded destinations together. */
  method Manifest(fold: Fold, entries: seq<Entry>) returns (error: Option<ManifestError>)
    requires SafeDestinations(entries)
    ensures error.None? <==> Apart(Targets(fold, entries), |entries|)
    ensures error.Some? ==> (error.value.FileDirectoryCollision? <==> Distinct(Targets(fold, entries), |entries|))
  {
    hide Folded, Tables, IsParent;
    ghost var targets := Targets(fold, entries);
    var exact, portable;
    error, exact, portable := Register(fold, entries);
    if error.Some? {
      return;
    }
    for n := 0 to |entries|
      invariant forall j :: 0 <= j < n ==> NoParent(targets, targets[j])
    {
      assert Folded(fold, entries[n].destination) == targets[n];
      var taken := ParentTaken(fold, entries[n].destination, exact, portable);
      if taken {
        ParentCollides(targets, n, portable);
        return Some(FileDirectoryCollision);
      }
    }
    assert Apart(targets, |entries|) by {
      DistinctWithoutParents(targets);
    }
    return None;
  }

  lemma {:induction false} ParentCollides(targets: seq<Path>, n: nat, portable: map<Path, Path>)
    requires n < |targets| && Taken(targets, |targets|, portable)
    requires exists key :: key in portable && IsParent(key, targets[n])
    ensures !Apart(targets, |targets|)
  {
    var key :| key in portable && IsParent(key, targets[n]);
    var i :| 0 <= i < |targets| && targets[i] == key;
    assert i != n;
    assert !Clear(targets[if i < n then i else n], targets[if i < n then n else i]);
  }

  lemma {:induction false} DistinctWithoutParents(targets: seq<Path>)
    requires Distinct(targets, |targets|)
    requires forall j :: 0 <= j < |targets| ==> NoParent(targets, targets[j])
    ensures Apart(targets, |targets|)
  {
    forall i, j | 0 <= i < j < |targets|
      ensures Clear(targets[i], targets[j])
    {
      assert NoParent(targets, targets[i]) && NoParent(targets, targets[j]);
    }
  }

  // ---------------------------------------------------------------- the copy loop

  datatype Node = Directory | File(source: string)

  /** The nodes below the stage directory. */
  type Files = map<Path, Node>

  datatype CopyError = NotADirectory(path: Path) | FileExists(path: Path)

  /** Creates the first `n` directories on the way to a path, where they are missing. */
  function WithParents(files: Files, path: Path, n: nat): Result<Files, CopyError>
    requires n <= |path|
  {
    if n == 0 then Success(files)
    else
      var before := WithParents(files, path, n - 1);
      if before.Failure? then before
      else if path[..n] !in before.value then Success(before.value[path[..n] := Directory])
      else if before.value[path[..n]].File? then Failure(NotADirectory(path[..n]))
      else before
  }

  /** Copies one file: its directories first, then the file itself, which must not exist. */
  function Copied(files: Files, path: Path, source: string): Result<Files, CopyError>
    requires path != []
  {
    var parents := WithParents(files, path, |path| - 1);
    if parents.Failure? then parents
    else if path in parents.value then Failure(FileExists(path))
    else Success(parents.value[path := File(source)])
  }

  /** The stage holds the first `n` files, the directories on the way to them, and nothing else. */
  ghost predicate Holds(paths: seq<Path>, entries: seq<Entry>, n: nat, files: Files)
    requires n <= |paths| == |entries|
  {
    && (forall i :: 0 <= i < n ==> paths[i] in files && files[paths[i]] == File(entries[i].source))
    && (forall path :: path in files && files[path].File? ==> exists i :: 0 <= i < n && paths[i] == path)
    && (forall path :: path in files && files[path].Directory? <==> exists i :: 0 <= i < n && IsParent(path, paths[i]))
  }

  /**
   The copy loop, on a file system that identifies parts by `same`. It completes exactly if files
   can have all the destinations together as the file system sees them; then the stage holds one
   file per entry.
   */
  method CopyAll(same: Fold, entries: seq<Entry>) returns (result: Result<Files, CopyError>)
    requires SafeDestinations(entries)
    ensures result.Success? <==> Apart(Targets(same, entries), |entries|)
    ensures result.Success? ==> Holds(Targets(same, entries), entries, |entries|, result.value)
  {
    hide Folded, Copied, Holds;
    ghost var paths := Targets(same, entries);
    var files: Files := map[];
    assert Holds(paths, entries, 0, files) by { NothingHeld(paths, entries); }
    for n := 0 to |entries|
      invariant Holds(paths, entries, n, files) && Apart(paths, n)
    {
      var path := Folded(same, entries[n].destination);
      assert path == paths[n];
      var copied := Copied(files, path, entries[n].source);
      CopyFits(paths, entries, n, files);
      if copied.Failure? {
        return copied;
      }
      CopyHolds(paths, entries, n, files);
      files := copied.value;
    }
    return Success(files);
  }

  lemma {:induction false} NothingHeld(paths: seq<Path>, entries: seq<Entry>)
    requires |paths| == |entries|
    ensures Holds(paths, entries, 0, map[])
  {
  }

  /** Making the directories to a path adds those that are missing, or meets a file on the way. */
  lemma {:induction false} ParentsMade(files: Files, path: Path, n: nat)
    requires n <= |path|
    ensures var r := WithParents(files, path, n);
            && (r.Failure? <==> exists k :: 1 <= k <= n && path[..k] in files && files[path[..k]].File?)
            && (r.Success? ==>
                  && (forall p :: p in files ==> p in r.value && r.value[p] == files[p])
                  && (forall k :: 1 <= k <= n ==> path[..k] in r.value && r.value[path[..k]].Directory?)
                  && forall p :: p in r.value && p !in files ==>
                            1 <= |p| <= n && p == path[..|p|] && r.value[p].Directory?)
  {
    if n == 0 {
    } else {
      ParentsMade(files, path, n - 1);
    }
  }

  /** A file can be copied exactly if it is clear of the files copied before it. */
  lemma {:induction false} CopyFits(paths: seq<Path>, entries: seq<Entry>, n: nat, files: Files)
    requires n < |paths| == |entries| && paths[n] != [] && Holds(paths, entries, n, files)
    ensures Copied(files, paths[n], entries[n].source).Success? <==>
              forall i :: 0 <= i < n ==> Clear(paths[i], paths[n])
  {
    hide Copied;
    var path := paths[n];
    CopyFails(files, path, entries[n].source);
    if Copied(files, path, entries[n].source).Failure? {
      assert exists i :: 0 <= i < n && !Clear(paths[i], path);
    } else {
      forall i | 0 <= i < n
        ensures Clear(paths[i], path)
      {
        assert paths[i] in files && !IsParent(paths[i], path);
        assert IsParent(path, paths[i]) ==> path in files;
      }
    }
  }

  /** A copy fails if something is at the path already, or a file on the way. */
  lemma {:induction false} CopyFails(files: Files, path: Path, source: string)
    requires path != []
    ensures Copied(files, path, source).Failure? <==>
              path in files || exists p :: p in files && files[p].File? && IsParent(p, path)
  {
    hide WithParents;
    ParentsMade(files, path, |path| - 1);
    if p :| p in files && files[p].File? && IsParent(p, path) {
      assert path[..|p|] in files;
    }
    if k: nat :| 1 <= k <= |path| - 1 && path[..k] in files && files[path[..k]].File? {
      assert IsParent(path[..k], path);
    }
  }

  /** The nodes that a copy adds. */
  lemma {:induction false} CopyAdds(files: Files, path: Path, source: string)
    requires path != [] && Copied(files, path, source).Success?
    ensures var r := Copied(files, path, source).value;
            && path !in files && path in r && r[path] == File(source)
            && (forall p :: p in files ==> p in r && r[p] == files[p])
            && (forall p :: IsParent(p, path) ==> p in r && r[p].Directory?)
            && forall p :: p in r && p != path && p !in files ==> IsParent(p, path)
  {
    hide WithParents;
    ParentsMade(files, path, |path| - 1);
    var r := Copied(files, path, source).value;
    forall p | IsParent(p, path)
      ensures p in r && r[p].Directory?
    {
      assert p == path[..|p|] && 1 <= |p| <= |path| - 1;
    }
  }

  lemma {:induction false} CopyHolds(paths: seq<Path>, entries: seq<Entry>, n: nat, files: Files)
    requires n < |paths| == |entries| && paths[n] != [] && Holds(paths, entries, n, files)
    requires Copied(files, paths[n], entries[n].source).Success?
    ensures Holds(paths, entries, n + 1, Copied(files, paths[n], entries[n].source).value)
  {
    hide Copied, IsParent;
    CopyAdds(files, paths[n], entries[n].source);
    var r := Copied(files, paths[n], entries[n].source).value;
    forall path | path in r && r[path].Directory?
      ensures exists i :: 0 <= i < n + 1 && IsParent(path, paths[i])
    {
      if path in files {
        var i :| 0 <= i < n && IsParent(path, paths[i]);
      } else {
        assert IsParent(path, paths[n]);
      }
    }
    forall i, path | 0 <= i < n + 1 && IsParent(path, paths[i])
      ensures path in r && r[path].Directory?
    {
    }
  }

  // ---------------------------------------------------------------- accepted manifests copy

  /** Parts that the file system takes as one have the same portable form. */
  ghost predicate Coarser(fold: Fold, same: Fold)
  {
    forall a, b :: same(a) == same(b) ==> fold(a) == fold(b)
  }

  /** An accepted manifest is free of conflicts on every file system that the portable form covers. */
  lemma {:induction false} AcceptedManifestCopies(fold: Fold, same: Fold, entries: seq<Entry>)
    requires Coarser(fold, same) && Apart(Targets(fold, entries), |entries|)
    ensures Apart(Targets(same, entries), |entries|)
  {
    forall i, j | 0 <= i < j < |entries|
      ensures Clear(Targets(same, entries)[i], Targets(same, entries)[j])
    {
      assert Clear(Targets(fold, entries)[i], Targets(fold, entries)[j]);
      ClearIsCoarser(fold, same, entries[i].destination, entries[j].destination);
    }
  }

  lemma {:induction false} ClearIsCoarser(fold: Fold, same: Fold, left: Path, right: Path)
    requires Coarser(fold, same) && Clear(Folded(fold, left), Folded(fold, right))
    ensures Clear(Folded(same, left), Folded(same, right))
  {
    if |left| <= |right| {
      PrefixIsCoarser(fold, same, left, right);
    }
    if |right| <= |left| {
      PrefixIsCoarser(fold, same, right, left);
    }
  }

  lemma {:induction false} PrefixIsCoarser(fold: Fold, same: Fold, left: Path, right: Path)
    requires Coarser(fold, same) && |left| <= |right|
    ensures Folded(same, left) == Folded(same, right)[..|left|] ==>
              Folded(fold, left) == Folded(fold, right)[..|left|]
  {
    if Folded(same, left) != Folded(same, right)[..|left|] {
      return;
    }
    forall k | 0 <= k < |left|
      ensures fold(left[k]) == fold(right[k])
    {
      assert Folded(same, left)[k] == Folded(same, right)[..|left|][k];
    }
  }

  /** The sort of the accepted entries: every entry has one place in the order. */
  ghost predicate IsOrder(order: seq<nat>, count: nat)
  {
    && |order| == count
    && (forall i :: 0 <= i < count ==> order[i] < count)
    && forall i, j :: 0 <= i < j < count ==> order[i] != order[j]
  }

  function Ordered(entries: seq<Entry>, order: seq<nat>): (r: seq<Entry>)
    requires forall i :: 0 <= i < |order| ==> order[i] < |entries|
    ensures |r| == |order|
  {
    seq(|order|, i requires 0 <= i < |order| => entries[order[i]])
  }

  lemma {:induction false} OrderedStaysApart(same: Fold, entries: seq<Entry>, order: seq<nat>)
    requires IsOrder(order, |entries|) && Apart(Targets(same, entries), |entries|)
    ensures Apart(Targets(same, Ordered(entries, order)), |entries|)
  {
    var paths, ordered := Targets(same, entries), Targets(same, Ordered(entries, order));
    forall i, j | 0 <= i < j < |entries|
      ensures Clear(ordered[i], ordered[j])
    {
      var a, b := order[i], order[j];
      assert ordered[i] == paths[a] && ordered[j] == paths[b];
      assert Clear(paths[if a < b then a else b], paths[if a < b then b else a]);
    }
  }

  /**
   The manifest and the copy loop together. Once the manifest is accepted, no exclusive create and
   no directory on the way can fail, on a case-sensitive file system or on a folding one.
   */
  method Assemble(fold: Fold, same: Fold, entries: seq<Entry>, order: seq<nat>)
    returns (rejected: Option<ManifestError>, stage: Result<Files, CopyError>)
    requires SafeDestinations(entries) && IsOrder(order, |entries|)
    requires Coarser(fold, same)
    ensures rejected.None? <==> Apart(Targets(fold, entries), |entries|)
    ensures rejected.None? ==> stage.Success?
    ensures rejected.None? ==>
              Holds(Targets(same, Ordered(entries, order)), Ordered(entries, order), |entries|, stage.value)
  {
    stage := Success(map[]);
    rejected := Manifest(fold, entries);
    if rejected.None? {
      AcceptedManifestCopies(fold, same, entries);
      OrderedStaysApart(same, entries, order);
      stage := CopyAll(same, Ordered(entries, order));
    }
  }
}
