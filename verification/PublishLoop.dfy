/**
 The publish loop: uploads the packages that the registry does not hold yet, one at a time,
 waiting out rate limits; it may fail or be cut off at any attempt, and be run again.

 Package versions are fixed during a release, so the registry is a map by package name. What
 the outside world does in a run is how the queries of the first scan go, and a script: one
 attempt for each time cargo is called. A script that ends early is a run cut off between two
 calls of cargo, and a query that raises is a run that ends inside an attempt, so the end states
 over all worlds are all the states the registry is ever in.
 */
module PublishLoop {
  import opened Wrappers
  import opened PublicationOrder

  /** What the registry holds for a published version; versions are immutable. */
  datatype Record = Record(checksum: string, yanked: bool)

  type Registry = map<string, Record>

  /** A query sees what is stored of a version, misses it and answers that there is none, or raises. */
  datatype Query = Sees | Misses | Raises

  /**
   One call of cargo: what it leaves in the registry if the version was absent, how the query
   that follows goes, cargo's exit code, and whether its output names a time to retry.
   */
  datatype Attempt = Attempt(stored: Option<Record>, query: Query, exitCode: int, retry: bool)

  /** The versions whose stored records the scan misses, those whose query raises, and the calls of cargo. */
  datatype World = World(missed: set<string>, raised: set<string>, script: seq<Attempt>)

  datatype PublishError =
    | Conflict(name: string)
    | NotAvailable(name: string)
    | CargoFailed(name: string)
    | QueryRaised(name: string)

  datatype Ending = Done | Failed(error: PublishError) | CutOff

  /** Accepted archive checksums, by package name. */
  type Archives = map<string, string>

  ghost predicate HasArchives(packages: seq<Package>, archives: Archives)
  {
    forall i :: 0 <= i < |packages| ==> packages[i].name in archives
  }

  predicate Matches(record: Record, digest: string)
  {
    !record.yanked && record.checksum == digest
  }

  // ---------------------------------------------------------------- what a run comes to

  /** The packages not seen in the registry, or the first whose query raises or sees other content. */
  ghost function Scan(
    packages: seq<Package>, archives: Archives, seen: Registry, raised: set<string>)
    : Result<seq<Package>, PublishError>
    requires HasArchives(packages, archives)
  {
    if packages == [] then Success([])
    else
      var before, last := Scan(packages[..|packages| - 1], archives, seen, raised), packages[|packages| - 1];
      if before.Failure? then before
      else if last.name in raised then Failure(QueryRaised(last.name))
      else if last.name !in seen then Success(before.value + [last])
      else if Matches(seen[last.name], archives[last.name]) then before
      else Failure(Conflict(last.name))
  }

  function After(registry: Registry, name: string, attempt: Attempt): Registry
  {
    if name !in registry && attempt.stored.Some? then registry[name := attempt.stored.value] else registry
  }

  /** Publishes `pending` in turn against a script of attempts. */
  ghost function Uploads(
    pending: seq<Package>, archives: Archives, registry: Registry, script: seq<Attempt>): (Ending, Registry)
    requires HasArchives(pending, archives)
    decreases |script|
  {
    if pending == [] then (Done, registry)
    else if script == [] then (CutOff, registry)
    else
      var name, attempt := pending[0].name, script[0];
      var registry' := After(registry, name, attempt);
      if attempt.query.Raises? then (Failed(QueryRaised(name)), registry')
      else if attempt.query.Sees? && name in registry' then
        if Matches(registry'[name], archives[name]) then Uploads(pending[1..], archives, registry', script[1..])
        else (Failed(Conflict(name)), registry')
      else if attempt.exitCode == 0 then (Failed(NotAvailable(name)), registry')
      else if !attempt.retry then (Failed(CargoFailed(name)), registry')
      else Uploads(pending, archives, registry', script[1..])
  }

  lemma {:induction false} ScanHasArchives(
    packages: seq<Package>, archives: Archives, seen: Registry, raised: set<string>)
    requires HasArchives(packages, archives)
    ensures Scan(packages, archives, seen, raised).Success? ==>
              HasArchives(Scan(packages, archives, seen, raised).value, archives)
  {
    if packages == [] {
    } else {
      ScanHasArchives(packages[..|packages| - 1], archives, seen, raised);
    }
  }

  ghost function PublishRun(
    packages: seq<Package>, archives: Archives, registry: Registry, world: World): (Ending, Registry)
    requires HasArchives(packages, archives)
  {
    ScanHasArchives(packages, archives, registry - world.missed, world.raised);
    var pending := Scan(packages, archives, registry - world.missed, world.raised);
    if pending.Failure? then (Failed(pending.error), registry)
    else Uploads(pending.value, archives, registry, world.script)
  }

  // ---------------------------------------------------------------- the loop itself

  class Release {
    var records: Registry

    constructor (records: Registry)
      ensures this.records == records
    {
      this.records := records;
    }

    /** Looks at every package before anything is uploaded. */
    method PendingPublications(packages: seq<Package>, archives: Archives, missed: set<string>, raised: set<string>)
      returns (pending: Result<seq<Package>, PublishError>)
      requires HasArchives(packages, archives)
      ensures pending == Scan(packages, archives, records - missed, raised)
    {
      ghost var seen := records - missed;
      var absent: seq<Package> := [];
      for i := 0 to |packages|
        invariant Scan(packages[..i], archives, seen, raised) == Success(absent)
      {
        var package := packages[i];
        assert packages[..i + 1][..i] == packages[..i];
        if package.name in raised {
          ScanFailsOnPrefix(packages, archives, seen, raised, i + 1);
          return Failure(QueryRaised(package.name));
        }
        if package.name !in records || package.name in missed {
          absent := absent + [package];
        } else if !Matches(records[package.name], archives[package.name]) {
          ScanFailsOnPrefix(packages, archives, seen, raised, i + 1);
          return Failure(Conflict(package.name));
        }
      }
      assert packages[..|packages|] == packages;
      return Success(absent);
    }

    /** Publishes what is pending; the result and the registry are those of `PublishRun`. */
    method Publish(packages: seq<Package>, archives: Archives, world: World) returns (ending: Ending)
      requires HasArchives(packages, archives)
      modifies this
      ensures (ending, records) == PublishRun(packages, archives, old(records), world)
    {
      hide Matches, After;
      ScanHasArchives(packages, archives, records - world.missed, world.raised);
      var pending := PendingPublications(packages, archives, world.missed, world.raised);
      if pending.Failure? {
        return Failed(pending.error);
      }
      var script := world.script;
      var used := 0;
      ghost var start := records;
      for i := 0 to |pending.value|
        invariant used <= |script|
        invariant Uploads(pending.value, archives, start, script)
               == Uploads(pending.value[i..], archives, records, script[used..])
      {
        var name := pending.value[i].name;
        var published := false;
        while !published
          invariant used <= |script|
          invariant Uploads(pending.value, archives, start, script)
                 == Uploads(pending.value[if published then i + 1 else i..], archives, records, script[used..])
          decreases |script| - used, !published
        {
          if used == |script| {
            return CutOff;
          }
          var attempt := script[used];
          used := used + 1;
          assert script[used - 1..][1..] == script[used..];
          assert pending.value[i..][1..] == pending.value[i + 1..];
          records := After(records, name, attempt);
          if attempt.query.Raises? {
            return Failed(QueryRaised(name));
          } else if attempt.query.Sees? && name in records {
            if !Matches(records[name], archives[name]) {
              return Failed(Conflict(name));
            }
            published := true;
          } else if attempt.exitCode == 0 {
            return Failed(NotAvailable(name));
          } else if !attempt.retry {
            return Failed(CargoFailed(name));
          }
        }
      }
      return Done;
    }
  }

  lemma {:induction false} ScanFailsOnPrefix(
    packages: seq<Package>, archives: Archives, seen: Registry, raised: set<string>, k: nat)
    requires HasArchives(packages, archives) && k <= |packages|
    requires Scan(packages[..k], archives, seen, raised).Failure?
    ensures Scan(packages, archives, seen, raised) == Scan(packages[..k], archives, seen, raised)
  {
    if k == |packages| {
      assert packages[..k] == packages;
    } else {
      assert packages[..|packages| - 1][..k] == packages[..k];
      ScanFailsOnPrefix(packages[..|packages| - 1], archives, seen, raised, k);
    }
  }

  // ---------------------------------------------------------------- conflicts come first

  /** A run fails before uploading anything exactly when a query raises or sees a conflicting version. */
  lemma {:induction false} ScanFindsConflicts(
    packages: seq<Package>, archives: Archives, seen: Registry, raised: set<string>)
    requires HasArchives(packages, archives)
    ensures Scan(packages, archives, seen, raised).Failure? <==>
            exists i :: 0 <= i < |packages|
                        && (packages[i].name in raised
                            || (packages[i].name in seen
                                && (seen[packages[i].name].yanked
                                    || seen[packages[i].name].checksum != archives[packages[i].name])))
  {
    if packages == [] {
    } else {
      var init := packages[..|packages| - 1];
      ScanFindsConflicts(init, archives, seen, raised);
      assert forall i :: 0 <= i < |init| ==> packages[i] == init[i];
    }
  }

  lemma {:induction false} ConflictUploadsNothing(
    packages: seq<Package>, archives: Archives, registry: Registry, world: World, i: nat)
    requires HasArchives(packages, archives) && i < |packages|
    requires packages[i].name in registry && packages[i].name !in world.missed
    requires registry[packages[i].name].yanked
             || registry[packages[i].name].checksum != archives[packages[i].name]
    ensures PublishRun(packages, archives, registry, world).0.Failed?
    ensures PublishRun(packages, archives, registry, world).1 == registry
  {
    ScanFindsConflicts(packages, archives, registry - world.missed, world.raised);
  }

  // ---------------------------------------------------------------- the registry stays closed

  /** Whatever of the release is in the registry has its dependencies there. */
  ghost predicate Closed(order: seq<Package>, registry: Registry)
  {
    forall i, d :: 0 <= i < |order| && order[i].name in registry && DependsOn(order[i], d) ==> d in registry
  }

  /** What a pending package depends on is in the registry or earlier in the list. */
  ghost predicate Ready(pending: seq<Package>, registry: Registry)
  {
    forall i, d :: 0 <= i < |pending| && DependsOn(pending[i], d) ==> d in registry || d in Names(pending[..i])
  }

  lemma {:induction false} ScanIsReady(
    order: seq<Package>, archives: Archives, seen: Registry, raised: set<string>)
    requires Topological(order) && HasArchives(order, archives)
    requires Scan(order, archives, seen, raised).Success?
    ensures var pending := Scan(order, archives, seen, raised).value;
            && Ready(pending, seen)
            && (forall name :: name in Names(order) <==>
                                     name in Names(pending) || (name in Names(order) && name in seen))
            && (forall name :: name in Names(pending) ==> name !in seen)
            && (forall i :: 0 <= i < |pending| ==> pending[i] in order)
  {
    if order == [] {
    } else {
      var before, last := order[..|order| - 1], order[|order| - 1];
      assert order == before + [last];
      NamesNext(before, last);
      ScanIsReady(before, archives, seen, raised);
      var pending := Scan(before, archives, seen, raised).value;
      if last.name !in seen {
        NamesNext(pending, last);
        var pending' := pending + [last];
        forall i, d | 0 <= i < |pending'| && DependsOn(pending'[i], d)
          ensures d in seen || d in Names(pending'[..i])
        {
          if i < |pending| {
            assert pending'[..i] == pending[..i] && pending'[i] == pending[i];
          } else {
            assert pending'[..i] == pending;
          }
        }
      }
    }
  }

  /** Publishing the first of a ready list keeps the rest ready. */
  lemma {:induction false} ReadyAfterFirst(pending: seq<Package>, registry: Registry, registry': Registry)
    requires pending != [] && Ready(pending, registry)
    requires registry.Keys <= registry'.Keys && pending[0].name in registry'
    ensures Ready(pending[1..], registry')
  {
    forall i, d | 0 <= i < |pending[1..]| && DependsOn(pending[1..][i], d)
      ensures d in registry' || d in Names(pending[1..][..i])
    {
      assert pending[1..][i] == pending[i + 1];
      if d !in registry {
        var k :| 0 <= k < i + 1 && pending[..i + 1][k].name == d;
        assert k > 0 ==> pending[1..][..i][k - 1].name == d;
      }
    }
  }

  lemma {:induction false} FirstKeepsClosed(
    order: seq<Package>, pending: seq<Package>, registry: Registry, attempt: Attempt)
    requires Topological(order) && pending != [] && pending[0] in order
    requires Closed(order, registry) && Ready(pending, registry)
    ensures Closed(order, After(registry, pending[0].name, attempt))
  {
    var registry' := After(registry, pending[0].name, attempt);
    forall i, d | 0 <= i < |order| && order[i].name in registry' && DependsOn(order[i], d)
      ensures d in registry'
    {
      if order[i].name !in registry {
        SameNameSamePackage(order, order[i], pending[0]);
        assert pending[..0] == [] && Names([]) == {};
        assert DependsOn(pending[0], d);
      }
    }
  }

  lemma {:induction false} SameNameSamePackage(order: seq<Package>, p: Package, q: Package)
    requires Topological(order) && p in order && q in order && p.name == q.name
    ensures p == q
  {
    var before, last := order[..|order| - 1], order[|order| - 1];
    assert order == before + [last];
    assert forall k :: 0 <= k < |before| ==> before[k].name in Names(before);
    if p in before && q in before {
      SameNameSamePackage(before, p, q);
    }
  }

  lemma {:induction false} UploadsKeepClosed(
    order: seq<Package>, pending: seq<Package>, archives: Archives, registry: Registry, script: seq<Attempt>)
    requires Topological(order) && HasArchives(pending, archives)
    requires forall i :: 0 <= i < |pending| ==> pending[i] in order
    requires Closed(order, registry) && Ready(pending, registry)
    ensures Closed(order, Uploads(pending, archives, registry, script).1)
    decreases |script|
  {
    if pending != [] && script != [] {
      var name, attempt := pending[0].name, script[0];
      var registry' := After(registry, name, attempt);
      FirstKeepsClosed(order, pending, registry, attempt);
      if attempt.query.Sees? && name in registry' && Matches(registry'[name], archives[name]) {
        ReadyAfterFirst(pending, registry, registry');
        UploadsKeepClosed(order, pending[1..], archives, registry', script[1..]);
      } else {
        UploadsKeepClosed(order, pending, archives, registry', script[1..]);
      }
    }
  }

  /**
   From a registry where every published package of the release has its dependencies, every run,
   cut off or failed anywhere, leaves such a registry: no package is uploaded before all it needs.
   */
  lemma {:induction false} RegistryStaysClosed(
    order: seq<Package>, archives: Archives, registry: Registry, world: World)
    requires Topological(order) && HasArchives(order, archives) && Closed(order, registry)
    ensures Closed(order, PublishRun(order, archives, registry, world).1)
  {
    var seen, raised := registry - world.missed, world.raised;
    if Scan(order, archives, seen, raised).Success? {
      var pending := Scan(order, archives, seen, raised).value;
      ScanIsReady(order, archives, seen, raised);
      ScanHasArchives(order, archives, seen, raised);
      forall i, d | 0 <= i < |pending| && DependsOn(pending[i], d)
        ensures d in registry || d in Names(pending[..i])
      {
        assert d in seen || d in Names(pending[..i]);
      }
      UploadsKeepClosed(order, pending, archives, registry, world.script);
    }
  }

  /** The registry after a series of runs, each starting where the one before it stopped. */
  ghost function Reruns(
    order: seq<Package>, archives: Archives, registry: Registry, worlds: seq<World>): Registry
    requires HasArchives(order, archives)
  {
    if worlds == [] then registry
    else
      var before := Reruns(order, archives, registry, worlds[..|worlds| - 1]);
      PublishRun(order, archives, before, worlds[|worlds| - 1]).1
  }

  lemma {:induction false} RerunsStayClosed(
    order: seq<Package>, archives: Archives, registry: Registry, worlds: seq<World>)
    requires Topological(order) && HasArchives(order, archives) && Closed(order, registry)
    ensures Closed(order, Reruns(order, archives, registry, worlds))
  {
    if worlds == [] {
    } else {
      RerunsStayClosed(order, archives, registry, worlds[..|worlds| - 1]);
      var before := Reruns(order, archives, registry, worlds[..|worlds| - 1]);
      RegistryStaysClosed(order, archives, before, worlds[|worlds| - 1]);
    }
  }

  // ---------------------------------------------------------------- finished runs and reruns

  /** No run changes or removes a published version. */
  lemma {:induction false} UploadsOnlyAdd(
    pending: seq<Package>, archives: Archives, registry: Registry, script: seq<Attempt>)
    requires HasArchives(pending, archives)
    ensures var (ending, registry') := Uploads(pending, archives, registry, script);
            && (forall name :: name in registry ==> name in registry' && registry'[name] == registry[name])
            && (ending.Done? ==> forall i :: 0 <= i < |pending| ==> IsPublished(pending[i], archives, registry'))
            && (ending.Failed? || ending.CutOff? ==> pending != [])
    decreases |script|
  {
    if pending != [] && script != [] {
      var name, attempt := pending[0].name, script[0];
      var registry' := After(registry, name, attempt);
      if attempt.query.Sees? && name in registry' && Matches(registry'[name], archives[name]) {
        UploadsOnlyAdd(pending[1..], archives, registry', script[1..]);
        var end := Uploads(pending[1..], archives, registry', script[1..]).1;
        forall i | 0 <= i < |pending| && Uploads(pending, archives, registry, script).0.Done?
          ensures IsPublished(pending[i], archives, end)
        {
          assert i > 0 ==> pending[i] == pending[1..][i - 1];
        }
      } else {
        UploadsOnlyAdd(pending, archives, registry', script[1..]);
      }
    }
  }

  /** The registry holds the accepted content of the package. */
  ghost predicate IsPublished(package: Package, archives: Archives, registry: Registry)
  {
    && package.name in archives && package.name in registry
    && registry[package.name] == Record(archives[package.name], false)
  }

  ghost predicate AllPublished(packages: seq<Package>, archives: Archives, registry: Registry)
  {
    forall i :: 0 <= i < |packages| ==> IsPublished(packages[i], archives, registry)
  }

  /** Every package of a list is pending or published with its accepted content. */
  lemma {:induction false} ScanSplits(
    packages: seq<Package>, archives: Archives, seen: Registry, raised: set<string>)
    requires HasArchives(packages, archives) && Scan(packages, archives, seen, raised).Success?
    ensures forall i :: 0 <= i < |packages| ==>
                          packages[i] in Scan(packages, archives, seen, raised).value
                          || IsPublished(packages[i], archives, seen)
    ensures AllPublished(packages, archives, seen) ==> Scan(packages, archives, seen, raised).value == []
  {
    if packages == [] {
    } else {
      var init := packages[..|packages| - 1];
      ScanSplits(init, archives, seen, raised);
      assert forall i :: 0 <= i < |init| ==> init[i] == packages[i];
      if AllPublished(packages, archives, seen) {
        assert AllPublished(init, archives, seen);
      }
    }
  }

  /** The scan of a run sees what is stored, and none of its queries raises. */
  function Clear(script: seq<Attempt>): World
  {
    World({}, {}, script)
  }

  lemma {:induction false} ClearRun(
    packages: seq<Package>, archives: Archives, registry: Registry, script: seq<Attempt>)
    requires HasArchives(packages, archives)
    ensures var pending := Scan(packages, archives, registry, {});
            && (pending.Success? ==> HasArchives(pending.value, archives))
            && PublishRun(packages, archives, registry, Clear(script))
               == if pending.Failure? then (Failed(pending.error), registry)
                  else Uploads(pending.value, archives, registry, script)
  {
    assert registry - {} == registry;
    ScanHasArchives(packages, archives, registry, {});
  }

  lemma {:induction false} ScanIsPart(
    packages: seq<Package>, archives: Archives, seen: Registry, raised: set<string>)
    requires HasArchives(packages, archives) && Scan(packages, archives, seen, raised).Success?
    ensures forall i :: 0 <= i < |Scan(packages, archives, seen, raised).value| ==>
                          Scan(packages, archives, seen, raised).value[i] in packages
  {
    if packages == [] {
    } else {
      ScanIsPart(packages[..|packages| - 1], archives, seen, raised);
    }
  }

  /** Nothing is uploaded where everything is stored. */
  lemma {:induction false} StoredStays(
    pending: seq<Package>, archives: Archives, registry: Registry, script: seq<Attempt>)
    requires HasArchives(pending, archives) && forall i :: 0 <= i < |pending| ==> pending[i].name in registry
    ensures Uploads(pending, archives, registry, script).1 == registry
    decreases |script|
  {
    hide Matches;
    if pending != [] && script != [] {
      StoredStays(pending[1..], archives, registry, script[1..]);
      StoredStays(pending, archives, registry, script[1..]);
    }
  }

  /**
   A run that ends well has published everything. No later run changes anything, and one whose
   scan sees what is stored asks cargo nothing.
   */
  lemma {:induction false} DoneIsFinal(
    packages: seq<Package>, archives: Archives, registry: Registry, world: World, later: World)
    requires HasArchives(packages, archives)
    requires PublishRun(packages, archives, registry, world).0.Done?
    ensures var registry' := PublishRun(packages, archives, registry, world).1;
            && AllPublished(packages, archives, registry')
            && PublishRun(packages, archives, registry', later).1 == registry'
            && (later == Clear(later.script) ==> PublishRun(packages, archives, registry', later).0 == Done)
  {
    DonePublishesAll(packages, archives, registry, world);
    var registry' := PublishRun(packages, archives, registry, world).1;
    hide PublishRun;
    AllStaysPublished(packages, archives, registry', later);
  }

  lemma {:induction false} DonePublishesAll(
    packages: seq<Package>, archives: Archives, registry: Registry, world: World)
    requires HasArchives(packages, archives)
    requires PublishRun(packages, archives, registry, world).0.Done?
    ensures AllPublished(packages, archives, PublishRun(packages, archives, registry, world).1)
  {
    var seen := registry - world.missed;
    var pending := Scan(packages, archives, seen, world.raised).value;
    var registry' := PublishRun(packages, archives, registry, world).1;
    ScanHasArchives(packages, archives, seen, world.raised);
    ScanSplits(packages, archives, seen, world.raised);
    UploadsOnlyAdd(pending, archives, registry, world.script);
    forall i | 0 <= i < |packages|
      ensures IsPublished(packages[i], archives, registry')
    {
      if packages[i] in pending {
        var k :| 0 <= k < |pending| && pending[k] == packages[i];
        assert IsPublished(pending[k], archives, registry');
      }
    }
  }

  lemma {:induction false} AllStaysPublished(
    packages: seq<Package>, archives: Archives, registry: Registry, later: World)
    requires HasArchives(packages, archives) && AllPublished(packages, archives, registry)
    ensures PublishRun(packages, archives, registry, later).1 == registry
    ensures later == Clear(later.script) ==> PublishRun(packages, archives, registry, later).0 == Done
  {
    var seen, raised := registry - later.missed, later.raised;
    assert forall i :: 0 <= i < |packages| ==> IsPublished(packages[i], archives, registry);
    ScanHasArchives(packages, archives, seen, raised);
    if Scan(packages, archives, seen, raised).Success? {
      var pending := Scan(packages, archives, seen, raised).value;
      ScanIsPart(packages, archives, seen, raised);
      assert forall i :: 0 <= i < |pending| ==> pending[i].name in registry;
      StoredStays(pending, archives, registry, later.script);
    }
    if later == Clear(later.script) {
      ScanFindsConflicts(packages, archives, registry, {});
      ScanSplits(packages, archives, registry, {});
      ClearRun(packages, archives, registry, later.script);
    }
  }

  // ---------------------------------------------------------------- where a run has got to

  ghost predicate Absent(packages: seq<Package>, registry: Registry)
  {
    forall i :: 0 <= i < |packages| ==> packages[i].name !in registry
  }

  lemma {:induction false} NamesFirst(packages: seq<Package>)
    requires packages != []
    ensures Names(packages) == {packages[0].name} + Names(packages[1..])
  {
    forall name | name in Names(packages)
      ensures name in {packages[0].name} + Names(packages[1..])
    {
      var i :| 0 <= i < |packages| && packages[i].name == name;
      assert i > 0 ==> packages[1..][i - 1].name == name;
    }
    forall name | name in Names(packages[1..])
      ensures name in Names(packages)
    {
      var i :| 0 <= i < |packages[1..]| && packages[1..][i].name == name;
      assert packages[i + 1].name == name;
    }
  }

  lemma {:induction false} AbsentFirst(packages: seq<Package>, registry: Registry)
    requires packages != []
    ensures Absent(packages, registry) <==> packages[0].name !in registry && Absent(packages[1..], registry)
  {
    assert packages == [packages[0]] + packages[1..];
  }

  lemma {:induction false} AbsentNames(packages: seq<Package>, registry: Registry)
    ensures Absent(packages, registry) <==> Names(packages) !! registry.Keys
  {
    if packages == [] {
    } else {
      NamesFirst(packages);
      AbsentNames(packages[1..], registry);
      AbsentFirst(packages, registry);
    }
  }

  /** A scan depends on what it sees of the packages it looks at. */
  lemma {:induction false} ScanOfSame(
    packages: seq<Package>, archives: Archives, seen: Registry, raised: set<string>, seen': Registry)
    requires HasArchives(packages, archives) && Scan(packages, archives, seen, raised).Success?
    requires forall name :: name in Names(packages) ==>
                              (name in seen <==> name in seen') && (name in seen ==> seen[name] == seen'[name])
    ensures Scan(packages, archives, seen', {}) == Scan(packages, archives, seen, raised)
  {
    if packages == [] {
    } else {
      var init, last := packages[..|packages| - 1], packages[|packages| - 1];
      assert packages == init + [last];
      NamesNext(init, last);
      hide Names, Matches;
      ScanOfSame(init, archives, seen, raised, seen');
    }
  }

  /** After the first pending package is published, a fresh scan finds the others. */
  lemma {:induction false} ScanAfterUpload(order: seq<Package>, archives: Archives, registry: Registry, record: Record)
    requires Topological(order) && HasArchives(order, archives)
    requires Scan(order, archives, registry, {}).Success? && Scan(order, archives, registry, {}).value != []
    ensures var pending := Scan(order, archives, registry, {}).value;
            var name := pending[0].name;
            name in archives &&
            (Matches(record, archives[name]) ==>
               Scan(order, archives, registry[name := record], {}) == Success(pending[1..]))
  {
    hide Names, Matches, DependsOn;
    var before, last := order[..|order| - 1], order[|order| - 1];
    assert order == before + [last];
    var pending := Scan(before, archives, registry, {}).value;
    if pending == [] {
      assert Scan(order, archives, registry, {}).value == [last];
      ScanOfSame(before, archives, registry, {}, registry[last.name := record]);
      assert [last][1..] == [];
    } else {
      ScanAfterUpload(before, archives, registry, record);
      ScanIsReady(before, archives, registry, {});
      NamesFirst(pending);
      assert pending[0].name != last.name;
      assert (pending + [last])[0] == pending[0] && (pending + [last])[1..] == pending[1..] + [last];
    }
  }

  /** The loop is at `pending`: were nothing of it stored, a scan would find just that list. */
  ghost predicate IsAt(order: seq<Package>, archives: Archives, registry: Registry, pending: seq<Package>)
    requires HasArchives(order, archives)
  {
    Scan(order, archives, registry - Names(pending), {}) == Success(pending)
  }

  /** After its scan, the loop is at what the scan has found. */
  lemma {:induction false} StartIsAt(order: seq<Package>, archives: Archives, registry: Registry, world: World)
    requires Topological(order) && HasArchives(order, archives)
    requires Scan(order, archives, registry - world.missed, world.raised).Success?
    ensures var pending := Scan(order, archives, registry - world.missed, world.raised).value;
            IsAt(order, archives, registry, pending) && (world.missed == {} ==> Absent(pending, registry))
  {
    var seen := registry - world.missed;
    var pending := Scan(order, archives, seen, world.raised).value;
    ScanIsReady(order, archives, seen, world.raised);
    ScanOfSame(order, archives, seen, world.raised, registry - Names(pending));
    if world.missed == {} {
      assert seen == registry;
      AbsentNames(pending, registry);
    }
  }

  /** Once its first package is visible with the accepted content, the loop is at the others. */
  lemma {:induction false} NextIsAt(order: seq<Package>, archives: Archives, registry: Registry, pending: seq<Package>)
    requires Topological(order) && HasArchives(order, archives) && pending != []
    requires IsAt(order, archives, registry, pending)
    requires pending[0].name in registry && pending[0].name in archives
    requires Matches(registry[pending[0].name], archives[pending[0].name])
    ensures IsAt(order, archives, registry, pending[1..])
  {
    var name, base := pending[0].name, registry - Names(pending);
    ScanAfterUpload(order, archives, base, registry[name]);
    ScanIsReady(order, archives, base[name := registry[name]], {});
    hide Scan, Matches;
    NamesFirst(pending);
    assert registry - Names(pending[1..]) == base[name := registry[name]];
  }

  /** The packages of a place have names of their own. */
  lemma {:induction false} PlaceIsDistinct(
    order: seq<Package>, archives: Archives, registry: Registry, pending: seq<Package>)
    requires Topological(order) && HasArchives(order, archives) && pending != []
    requires IsAt(order, archives, registry, pending)
    ensures pending[0].name !in Names(pending[1..]) && pending[0].name in archives
  {
    var name, base := pending[0].name, registry - Names(pending);
    ScanHasArchives(order, archives, base, {});
    ScanAfterUpload(order, archives, base, Record(archives[name], false));
    ScanIsReady(order, archives, base[name := Record(archives[name], false)], {});
  }

  /** What a run has still to publish when its script ends. */
  ghost function Left(pending: seq<Package>, archives: Archives, registry: Registry, script: seq<Attempt>): seq<Package>
    requires HasArchives(pending, archives)
    decreases |script|
  {
    if pending == [] || script == [] then pending
    else
      var name := pending[0].name;
      var registry' := After(registry, name, script[0]);
      var seen := script[0].query.Sees? && name in registry';
      Left(if seen then pending[1..] else pending, archives, registry', script[1..])
  }

  /** A run that is cut off has got to a place in its list, and goes on from there. */
  lemma {:induction false} CutIsAPlace(
    order: seq<Package>, archives: Archives, pending: seq<Package>, registry: Registry, script: seq<Attempt>)
    requires Topological(order) && HasArchives(order, archives) && HasArchives(pending, archives)
    requires IsAt(order, archives, registry, pending)
    requires Uploads(pending, archives, registry, script).0.CutOff?
    ensures var rest, end := Left(pending, archives, registry, script), Uploads(pending, archives, registry, script).1;
            && rest != [] && HasArchives(rest, archives) && IsAt(order, archives, end, rest)
            && (Absent(pending[1..], registry) ==> Absent(rest[1..], end))
            && forall later ::
                 Uploads(pending, archives, registry, script + later) == Uploads(rest, archives, end, later)
    decreases |script|
  {
    if script == [] {
      assert forall later :: script + later == later;
    } else {
      var name, attempt := pending[0].name, script[0];
      var registry' := After(registry, name, attempt);
      PlaceIsDistinct(order, archives, registry, pending);
      AfterIsAt(order, archives, registry, pending, attempt);
      assert forall later :: (script + later)[1..] == script[1..] + later && (script + later)[0] == attempt;
      hide IsAt, Matches, Names;
      if attempt.query.Sees? && name in registry' {
        NextIsAt(order, archives, registry', pending);
        CutIsAPlace(order, archives, pending[1..], registry', script[1..]);
      } else {
        CutIsAPlace(order, archives, pending, registry', script[1..]);
      }
    }
  }

  /** A call of cargo changes nothing outside the first package. */
  lemma {:induction false} AfterIsAt(
    order: seq<Package>, archives: Archives, registry: Registry, pending: seq<Package>, attempt: Attempt)
    requires Topological(order) && HasArchives(order, archives) && pending != []
    requires IsAt(order, archives, registry, pending)
    ensures var registry' := After(registry, pending[0].name, attempt);
            IsAt(order, archives, registry', pending)
            && (Absent(pending[1..], registry) ==> Absent(pending[1..], registry'))
  {
    PlaceIsDistinct(order, archives, registry, pending);
    NamesFirst(pending);
    AbsentNames(pending[1..], registry);
    AbsentNames(pending[1..], After(registry, pending[0].name, attempt));
    assert After(registry, pending[0].name, attempt) - Names(pending) == registry - Names(pending);
  }

  /** What a run that is cut off was about to publish. */
  ghost function StillToPublish(
    order: seq<Package>, archives: Archives, registry: Registry, world: World): seq<Package>
    requires HasArchives(order, archives)
  {
    var seen := registry - world.missed;
    ScanHasArchives(order, archives, seen, world.raised);
    var pending := Scan(order, archives, seen, world.raised);
    if pending.Failure? then [] else Left(pending.value, archives, registry, world.script)
  }

  ghost function With(world: World, later: seq<Attempt>): World
  {
    world.(script := world.script + later)
  }

  /** A run that is cut off is at a place of its list, and with more attempts it goes on from there. */
  lemma {:induction false} CutRun(
    order: seq<Package>, archives: Archives, registry: Registry, world: World, later: seq<Attempt>)
    requires Topological(order) && HasArchives(order, archives)
    requires PublishRun(order, archives, registry, world).0.CutOff?
    ensures var rest, end := StillToPublish(order, archives, registry, world),
                             PublishRun(order, archives, registry, world).1;
            && rest != [] && HasArchives(rest, archives) && IsAt(order, archives, end, rest)
            && (world.missed == {} ==> Absent(rest[1..], end))
            && PublishRun(order, archives, registry, With(world, later)) == Uploads(rest, archives, end, later)
  {
    var seen := registry - world.missed;
    var pending := Scan(order, archives, seen, world.raised).value;
    ScanHasArchives(order, archives, seen, world.raised);
    StartIsAt(order, archives, registry, world);
    hide Scan, IsAt;
    CutIsAPlace(order, archives, pending, registry, world.script);
    hide Uploads, Left;
    assert Absent(pending, registry) ==> Absent(pending[1..], registry);
  }

  // ---------------------------------------------------------------- rerunning

  /** Where nothing of the place is stored, a rerun starts there. */
  lemma {:induction false} RerunAtPlace(
    order: seq<Package>, archives: Archives, registry: Registry, rest: seq<Package>, later: seq<Attempt>)
    requires HasArchives(order, archives) && HasArchives(rest, archives)
    requires IsAt(order, archives, registry, rest) && Absent(rest, registry)
    ensures PublishRun(order, archives, registry, Clear(later)) == Uploads(rest, archives, registry, later)
  {
    AbsentNames(rest, registry);
    assert registry - Names(rest) == registry;
    ClearRun(order, archives, registry, later);
  }

  /** Calls of cargo that publish the packages, each seen at once. */
  ghost function Successes(packages: seq<Package>, archives: Archives): seq<Attempt>
    requires HasArchives(packages, archives)
  {
    if packages == [] then []
    else
      [Attempt(Some(Record(archives[packages[0].name], false)), Sees, 0, false)] + Successes(packages[1..], archives)
  }

  /** A call of cargo that reports success but publishes nothing visible. */
  ghost function SilentSuccess(): seq<Attempt>
  {
    [Attempt(None, Misses, 0, false)]
  }

  lemma {:induction false} FirstStored(packages: seq<Package>, registry: Registry) returns (k: nat)
    requires !Absent(packages, registry)
    ensures k < |packages| && packages[k].name in registry && Absent(packages[..k], registry)
  {
    if packages[0].name in registry {
      k := 0;
    } else {
      assert !Absent(packages[1..], registry) by {
        var i :| 0 <= i < |packages| && packages[i].name in registry;
        assert packages[1..][i - 1] == packages[i];
      }
      k := FirstStored(packages[1..], registry);
      assert packages[..k + 1] == [packages[0]] + packages[1..][..k];
      k := k + 1;
    }
  }

  /** Past packages that publish well, silence about one that was stored already is an error. */
  lemma {:induction false} SilenceFails(
    rest: seq<Package>, archives: Archives, registry: Registry, k: nat)
    requires HasArchives(rest, archives) && k < |rest|
    requires forall i :: 0 <= i < k && rest[i].name in registry ==> IsPublished(rest[i], archives, registry)
    ensures HasArchives(rest[..k], archives)
    ensures Uploads(rest, archives, registry, Successes(rest[..k], archives) + SilentSuccess()).0
         == Failed(NotAvailable(rest[k].name))
  {
    var script := Successes(rest[..k], archives) + SilentSuccess();
    if k == 0 {
      assert script == SilentSuccess();
    } else {
      var name, digest := rest[0].name, archives[rest[0].name];
      assert rest[..k][1..] == rest[1..][..k - 1];
      assert script[1..] == Successes(rest[1..][..k - 1], archives) + SilentSuccess();
      var registry' := After(registry, name, script[0]);
      assert IsPublished(rest[0], archives, registry');
      forall i | 0 <= i < k - 1 && rest[1..][i].name in registry'
        ensures IsPublished(rest[1..][i], archives, registry')
      {
        assert rest[1..][i] == rest[i + 1];
      }
      SilenceFails(rest[1..], archives, registry', k - 1);
    }
  }

  /** Cargo's silence is held against a package of the list only. */
  lemma {:induction false} SilenceIsNamed(
    pending: seq<Package>, archives: Archives, registry: Registry, script: seq<Attempt>, name: string)
    requires HasArchives(pending, archives) && name !in Names(pending)
    ensures Uploads(pending, archives, registry, script).0 != Failed(NotAvailable(name))
    decreases |script|
  {
    if pending != [] && script != [] {
      NamesFirst(pending);
      hide Names, Matches;
      var registry' := After(registry, pending[0].name, script[0]);
      SilenceIsNamed(pending[1..], archives, registry', script[1..], name);
      SilenceIsNamed(pending, archives, registry', script[1..], name);
    }
  }

  lemma {:induction false} ScanFailsWithConflict(packages: seq<Package>, archives: Archives, registry: Registry)
    requires HasArchives(packages, archives) && Scan(packages, archives, registry, {}).Failure?
    ensures Scan(packages, archives, registry, {}).error.Conflict?
  {
    if packages != [] && Scan(packages[..|packages| - 1], archives, registry, {}).Failure? {
      ScanFailsWithConflict(packages[..|packages| - 1], archives, registry);
    }
  }

  /** Where something of the place is stored, calls of cargo can tell a rerun from going on. */
  lemma {:induction false} StoredTells(
    order: seq<Package>, archives: Archives, registry: Registry, rest: seq<Package>) returns (later: seq<Attempt>)
    requires Topological(order) && HasArchives(order, archives) && HasArchives(rest, archives)
    requires !Absent(rest, registry)
    ensures Uploads(rest, archives, registry, later) != PublishRun(order, archives, registry, Clear(later))
  {
    var k := FirstStored(rest, registry);
    assert forall i :: 0 <= i < k ==> rest[..k][i] == rest[i];
    SilenceFails(rest, archives, registry, k);
    later := Successes(rest[..k], archives) + SilentSuccess();
    ClearRun(order, archives, registry, later);
    if Scan(order, archives, registry, {}).Failure? {
      ScanFailsWithConflict(order, archives, registry);
    } else {
      ScanIsReady(order, archives, registry, {});
      SilenceIsNamed(Scan(order, archives, registry, {}).value, archives, registry, later, rest[k].name);
    }
  }

  /** A rerun goes on from a place, whatever happens later. */
  ghost predicate RerunAgrees(
    order: seq<Package>, archives: Archives, registry: Registry, rest: seq<Package>)
    requires HasArchives(order, archives) && HasArchives(rest, archives)
  {
    forall later ::
      Uploads(rest, archives, registry, later) == PublishRun(order, archives, registry, Clear(later))
  }

  lemma {:induction false} PlaceAgrees(order: seq<Package>, archives: Archives, registry: Registry, rest: seq<Package>)
    requires Topological(order) && HasArchives(order, archives) && HasArchives(rest, archives)
    requires IsAt(order, archives, registry, rest)
    ensures RerunAgrees(order, archives, registry, rest) <==> Absent(rest, registry)
  {
    hide IsAt, Uploads, PublishRun, Absent;
    if Absent(rest, registry) {
      forall later
        ensures Uploads(rest, archives, registry, later) == PublishRun(order, archives, registry, Clear(later))
      {
        RerunAtPlace(order, archives, registry, rest, later);
      }
    } else {
      var later := StoredTells(order, archives, registry, rest);
    }
  }

  /**
   A run that is cut off between two calls of cargo and run again comes to what the uninterrupted
   run comes to, whatever happens later, exactly if the registry holds nothing of what the run had
   still to publish. If its scan saw all that was stored, only the next version can be stored.
   */
  lemma {:induction false} RerunResumes(
    order: seq<Package>, archives: Archives, registry: Registry, world: World)
    requires Topological(order) && HasArchives(order, archives)
    requires PublishRun(order, archives, registry, world).0.CutOff?
    ensures var rest, end := StillToPublish(order, archives, registry, world),
                             PublishRun(order, archives, registry, world).1;
            && rest != []
            && ((forall later :: PublishRun(order, archives, registry, With(world, later))
                                 == PublishRun(order, archives, end, Clear(later)))
                <==> Absent(rest, end))
            && (world.missed == {} ==> (Absent(rest, end) <==> rest[0].name !in end))
  {
    CutRun(order, archives, registry, world, []);
    var rest, end := StillToPublish(order, archives, registry, world), PublishRun(order, archives, registry, world).1;
    PlaceAgrees(order, archives, end, rest);
    AbsentFirst(rest, end);
    hide StillToPublish, Uploads, PublishRun, Absent, IsAt, Names, With;
    forall later
      ensures PublishRun(order, archives, registry, With(world, later)) == Uploads(rest, archives, end, later)
    {
      CutRun(order, archives, registry, world, later);
    }
  }

  /** With other content under the first name of a place, a scan stops there. */
  lemma {:induction false} ConflictAtPlace(
    order: seq<Package>, archives: Archives, base: Registry, registry: Registry)
    requires Topological(order) && HasArchives(order, archives)
    requires Scan(order, archives, base, {}).Success? && Scan(order, archives, base, {}).value != []
    requires forall name :: name in base ==> name in registry && registry[name] == base[name]
    requires var name := Scan(order, archives, base, {}).value[0].name;
             name in registry && name in archives && !Matches(registry[name], archives[name])
    ensures Scan(order, archives, registry, {})
         == Failure(Conflict(Scan(order, archives, base, {}).value[0].name))
  {
    hide Matches, DependsOn;
    var before, last := order[..|order| - 1], order[|order| - 1];
    assert order == before + [last];
    var pending := Scan(before, archives, base, {}).value;
    if pending == [] {
      ScanIsReady(before, archives, base, {});
      assert Names([]) == {};
      ScanOfSame(before, archives, base, {}, registry);
    } else {
      assert Scan(order, archives, base, {}).value[0] == pending[0];
      ConflictAtPlace(before, archives, base, registry);
    }
  }

  lemma {:induction false} RaisedAttempt(
    rest: seq<Package>, archives: Archives, registry: Registry, attempt: Attempt)
    requires HasArchives(rest, archives) && rest != [] && attempt.query.Raises?
    ensures Uploads(rest, archives, registry, [attempt])
         == (Failed(QueryRaised(rest[0].name)), After(registry, rest[0].name, attempt))
  {
    hide Matches;
  }

  /**
   After an attempt at the first of `rest`: its version is stored, with other content or with nothing
   behind it stored, or cargo failed and named a time to retry, with nothing of the list stored.
   */
  ghost predicate CanRerun(rest: seq<Package>, archives: Archives, stored: Registry, attempt: Attempt)
    requires HasArchives(rest, archives) && rest != []
  {
    var name := rest[0].name;
    if name in stored then stored[name] != Record(archives[name], false) || Absent(rest[1..], stored)
    else attempt.exitCode != 0 && attempt.retry && Absent(rest, stored)
  }

  /** A rerun goes on from behind an attempt at a place, whatever happens later. */
  ghost predicate SeenAgrees(
    order: seq<Package>, archives: Archives, registry: Registry, rest: seq<Package>, attempt: Attempt)
    requires HasArchives(order, archives) && HasArchives(rest, archives) && rest != []
  {
    forall later ::
      Uploads(rest, archives, registry, [attempt] + later)
      == PublishRun(order, archives, After(registry, rest[0].name, attempt), Clear(later))
  }

  lemma {:induction false} SeenAttempt(
    order: seq<Package>, archives: Archives, registry: Registry, rest: seq<Package>, attempt: Attempt)
    requires Topological(order) && HasArchives(order, archives) && HasArchives(rest, archives) && rest != []
    requires IsAt(order, archives, registry, rest) && attempt.query.Sees?
    ensures var name := rest[0].name;
            var stored := After(registry, name, attempt);
            SeenAgrees(order, archives, registry, rest, attempt) <==> CanRerun(rest, archives, stored, attempt)
  {
    var name := rest[0].name;
    var stored := After(registry, name, attempt);
    AfterIsAt(order, archives, registry, rest, attempt);
    assert forall later :: ([attempt] + later)[0] == attempt && ([attempt] + later)[1..] == later;
    if name in stored && Matches(stored[name], archives[name]) {
      NextIsAt(order, archives, stored, rest);
      PlaceAgrees(order, archives, stored, rest[1..]);
      hide PublishRun, Absent, IsAt, Matches;
      assert SeenAgrees(order, archives, registry, rest, attempt) <==>
             RerunAgrees(order, archives, stored, rest[1..]);
    } else if name in stored {
      NamesFirst(rest);
      ConflictAtPlace(order, archives, stored - Names(rest), stored);
      forall later
        ensures Uploads(rest, archives, registry, [attempt] + later)
             == PublishRun(order, archives, stored, Clear(later))
      {
        ClearRun(order, archives, stored, later);
      }
    } else if attempt.exitCode != 0 && attempt.retry {
      PlaceAgrees(order, archives, stored, rest);
      hide PublishRun, Absent, IsAt, Matches;
      assert SeenAgrees(order, archives, registry, rest, attempt) <==>
             RerunAgrees(order, archives, stored, rest);
    } else {
      ClearRun(order, archives, stored, []);
      if Scan(order, archives, stored, {}).Failure? {
        ScanFailsWithConflict(order, archives, stored);
      }
      assert Uploads(rest, archives, registry, [attempt] + []) != PublishRun(order, archives, stored, Clear([]));
    }
  }

  lemma {:induction false} RaisedRun(
    order: seq<Package>, archives: Archives, registry: Registry, world: World, attempt: Attempt)
    requires Topological(order) && HasArchives(order, archives)
    requires PublishRun(order, archives, registry, world).0.CutOff? && attempt.query.Raises?
    ensures var rest, end := StillToPublish(order, archives, registry, world),
                             PublishRun(order, archives, registry, world).1;
            && rest != [] && HasArchives(rest, archives)
            && PublishRun(order, archives, registry, With(world, [attempt]))
               == (Failed(QueryRaised(rest[0].name)), After(end, rest[0].name, attempt))
            && (world.missed == {} ==> Absent(rest[1..], After(end, rest[0].name, attempt)))
  {
    CutRun(order, archives, registry, world, [attempt]);
    var rest, end := StillToPublish(order, archives, registry, world), PublishRun(order, archives, registry, world).1;
    hide *;
    AfterIsAt(order, archives, end, rest, attempt);
    RaisedAttempt(rest, archives, end, attempt);
  }

  lemma {:induction false} SeenRun(
    order: seq<Package>, archives: Archives, registry: Registry, world: World, attempt: Attempt)
    requires Topological(order) && HasArchives(order, archives)
    requires PublishRun(order, archives, registry, world).0.CutOff? && attempt.query.Sees?
    ensures var rest, end := StillToPublish(order, archives, registry, world),
                             PublishRun(order, archives, registry, world).1;
            rest != [] && HasArchives(rest, archives)
            && var stored := After(end, rest[0].name, attempt);
            (forall later :: PublishRun(order, archives, registry, With(world, [attempt] + later))
                             == PublishRun(order, archives, stored, Clear(later)))
            <==> CanRerun(rest, archives, stored, attempt)
  {
    CutRun(order, archives, registry, world, []);
    var rest, end := StillToPublish(order, archives, registry, world), PublishRun(order, archives, registry, world).1;
    SeenAttempt(order, archives, end, rest, attempt);
    hide StillToPublish, PublishRun, Uploads, Absent, IsAt, Matches, With, CanRerun, After, Names;
    forall later
      ensures PublishRun(order, archives, registry, With(world, [attempt] + later))
           == Uploads(rest, archives, end, [attempt] + later)
    {
      CutRun(order, archives, registry, world, [attempt] + later);
    }
  }

  /**
   A run that ends because the query after a call of cargo raised, and is run again, comes to what
   it would have come to had that query seen what is stored, whatever happens later, exactly if
   `CanRerun` holds. If its scan saw all that was stored, nothing behind the version is stored, so
   that this is: the version is stored, or cargo failed and named a time to retry.
   */
  lemma {:induction false} RaisedQueryResumes(
    order: seq<Package>, archives: Archives, registry: Registry, world: World, attempt: Attempt)
    requires Topological(order) && HasArchives(order, archives)
    requires PublishRun(order, archives, registry, world).0.CutOff?
    ensures var rest := StillToPublish(order, archives, registry, world);
            var (ending, stored) :=
              PublishRun(order, archives, registry, With(world, [attempt.(query := Raises)]));
            && rest != [] && HasArchives(rest, archives) && ending == Failed(QueryRaised(rest[0].name))
            && ((forall later ::
                   PublishRun(order, archives, registry, With(world, [attempt.(query := Sees)] + later))
                   == PublishRun(order, archives, stored, Clear(later)))
                <==> CanRerun(rest, archives, stored, attempt))
            && (world.missed == {} ==>
                  (CanRerun(rest, archives, stored, attempt) <==>
                   rest[0].name in stored || (attempt.exitCode != 0 && attempt.retry)))
  {
    RaisedRun(order, archives, registry, world, attempt.(query := Raises));
    SeenRun(order, archives, registry, world, attempt.(query := Sees));
    var rest := StillToPublish(order, archives, registry, world);
    var stored := PublishRun(order, archives, registry, With(world, [attempt.(query := Raises)])).1;
    AbsentFirst(rest, stored);
    hide StillToPublish, PublishRun, Absent, Matches, With, Names;
  }

  /** An upload that the query after it does not see, answered by a request to retry. */
  ghost function HiddenUpload(digest: string): seq<Attempt>
  {
    [Attempt(Some(Record(digest, false)), Misses, 101, true)]
  }

  ghost function OneArchive(package: Package, digest: string): Archives
  {
    map[package.name := digest]
  }

  /**
   An instance where the two differ: an upload the query does not see yet is found by a rerun, while
   the uninterrupted run calls cargo again and may fail.
   */
  lemma {:induction false} HiddenUploadDiffers(package: Package, digest: string)
    ensures HasArchives([package], OneArchive(package, digest))
    ensures var cut := PublishRun([package], OneArchive(package, digest), map[], Clear(HiddenUpload(digest)));
            && cut.0 == CutOff
            && PublishRun([package], OneArchive(package, digest), cut.1, Clear(SilentSuccess())).0 == Done
    ensures PublishRun(
              [package], OneArchive(package, digest), map[], Clear(HiddenUpload(digest) + SilentSuccess())).0
         == Failed(NotAvailable(package.name))
  {
    var archives, script, later := OneArchive(package, digest), HiddenUpload(digest), SilentSuccess();
    var stored: Registry := map[package.name := Record(digest, false)];
    var order, both := [package], script + later;
    ClearRun(order, archives, map[], script);
    ClearRun(order, archives, stored, later);
    ClearRun(order, archives, map[], both);
    assert order[..|order| - 1] == [] && [] + order == order;
    assert Scan([], archives, map[], {}) == Success([]) && Scan([], archives, stored, {}) == Success([]);
    assert Scan(order, archives, map[], {}) == Success(order) && Scan(order, archives, stored, {}) == Success([]);
    assert After(map[], package.name, script[0]) == stored && After(stored, package.name, later[0]) == stored;
    assert script[1..] == [] && both[0] == script[0] && both[1..] == later;
    assert Uploads(order, archives, stored, []) == (CutOff, stored);
    assert Uploads(order, archives, map[], script) == (CutOff, stored);
    assert Uploads(order, archives, stored, later) == (Failed(NotAvailable(package.name)), stored);
    assert Uploads(order, archives, map[], both) == Uploads(order, archives, stored, later);
  }
}
