/**
 The receipts of the Python candidate profiles: run by the resource scheduler in order of
 priority, then merged in the frozen order of the profiles.
 */
module ProfileReceipts {
  import opened Wrappers
  import Scheduling = ResourceScheduler

  datatype Receipt = Receipt(
    name: string, checks: seq<string>, dependencies: seq<(string, string)>, diagnostics: seq<string>, log: string)

  datatype Merged = Merged(
    receipts: seq<Receipt>, checks: seq<string>, dependencies: seq<(string, string)>,
    diagnostics: seq<(string, string)>, logs: seq<(string, string)>)

  datatype MergeError = ProfileFailed | UnexpectedIdentity | MissingReceipt | RepeatedDependency

  // ---------------------------------------------------------------- what merging means

  function NamesOf(receipts: seq<Receipt>): (r: seq<string>)
    ensures |r| == |receipts|
  {
    seq(|receipts|, i requires 0 <= i < |receipts| => receipts[i].name)
  }

  ghost predicate Distinct(names: seq<string>)
  {
    forall i, j :: 0 <= i < j < |names| ==> names[i] != names[j]
  }

  /** There is exactly one receipt for every expected name. */
  ghost predicate Complete(expected: seq<string>, receipts: seq<Receipt>)
  {
    && Distinct(NamesOf(receipts)) && |receipts| == |expected|
    && forall name :: name in expected <==> name in NamesOf(receipts)
  }

  /** The receipts in the expected order. */
  ghost predicate IsOrdered(expected: seq<string>, receipts: seq<Receipt>, ordered: seq<Receipt>)
  {
    NamesOf(ordered) == expected && forall receipt :: receipt in ordered ==> receipt in receipts
  }

  function Checks(receipts: seq<Receipt>): seq<string>
  {
    if receipts == [] then [] else Checks(receipts[..|receipts| - 1]) + receipts[|receipts| - 1].checks
  }

  function Dependencies(receipts: seq<Receipt>): seq<(string, string)>
  {
    if receipts == [] then [] else Dependencies(receipts[..|receipts| - 1]) + receipts[|receipts| - 1].dependencies
  }

  function Labelled(name: string, texts: seq<string>): seq<(string, string)>
  {
    seq(|texts|, i requires 0 <= i < |texts| => (name, texts[i]))
  }

  function Diagnostics(receipts: seq<Receipt>): seq<(string, string)>
  {
    if receipts == [] then []
    else
      var last := receipts[|receipts| - 1];
      Diagnostics(receipts[..|receipts| - 1]) + Labelled(last.name, last.diagnostics)
  }

  function Logs(receipts: seq<Receipt>): seq<(string, string)>
  {
    seq(|receipts|, i requires 0 <= i < |receipts| => (receipts[i].name, receipts[i].log))
  }

  function MergedOf(ordered: seq<Receipt>): Merged
  {
    Merged(ordered, Checks(ordered), Dependencies(ordered), Diagnostics(ordered), Logs(ordered))
  }

  ghost predicate DistinctKeys(pairs: seq<(string, string)>)
  {
    forall i, j :: 0 <= i < j < |pairs| ==> pairs[i].0 != pairs[j].0
  }

  /** Lists one behind the other. */
  ghost function Flat<T>(lists: seq<seq<T>>): seq<T>
  {
    if lists == [] then [] else lists[0] + Flat(lists[1..])
  }

  /** All that the receipts hold, in their order; diagnostics and logs with the names of their profiles. */
  ghost predicate Gathers(ordered: seq<Receipt>, merged: Merged)
  {
    var n := |ordered|;
    && merged.receipts == ordered
    && merged.checks == Flat(seq(n, i requires 0 <= i < n => ordered[i].checks))
    && merged.dependencies == Flat(seq(n, i requires 0 <= i < n => ordered[i].dependencies))
    && merged.diagnostics == Flat(seq(n, i requires 0 <= i < n => Named(ordered[i].name, ordered[i].diagnostics)))
    && merged.logs == Flat(seq(n, i requires 0 <= i < n => Named(ordered[i].name, [ordered[i].log])))
  }

  /** Texts, each behind the name they are under. */
  ghost function Named(name: string, texts: seq<string>): seq<(string, string)>
  {
    if texts == [] then [] else [(name, texts[0])] + Named(name, texts[1..])
  }

  lemma {:induction false} FlatNext<T>(lists: seq<seq<T>>, last: seq<T>)
    ensures Flat(lists + [last]) == Flat(lists) + last
  {
    if lists == [] {
      assert lists + [last] == [last] && [last][1..] == [] && Flat<T>([]) == [];
    } else {
      assert (lists + [last])[1..] == lists[1..] + [last];
      FlatNext(lists[1..], last);
    }
  }

  lemma {:induction false} LabelledIsNamed(name: string, texts: seq<string>)
    ensures Labelled(name, texts) == Named(name, texts)
  {
    if texts == [] {
    } else {
      LabelledIsNamed(name, texts[1..]);
      assert Labelled(name, texts) == [(name, texts[0])] + Labelled(name, texts[1..]);
    }
  }

  lemma {:induction false} ListsAreFlat(ordered: seq<Receipt>)
    ensures var n := |ordered|;
            && Checks(ordered) == Flat(seq(n, i requires 0 <= i < n => ordered[i].checks))
            && Dependencies(ordered) == Flat(seq(n, i requires 0 <= i < n => ordered[i].dependencies))
  {
    if ordered == [] {
    } else {
      var n, init, last := |ordered|, ordered[..|ordered| - 1], ordered[|ordered| - 1];
      ListsAreFlat(init);
      var checks := seq(n - 1, i requires 0 <= i < n - 1 => init[i].checks);
      FlatNext(checks, last.checks);
      assert seq(n, i requires 0 <= i < n => ordered[i].checks) == checks + [last.checks];
      var dependencies := seq(n - 1, i requires 0 <= i < n - 1 => init[i].dependencies);
      FlatNext(dependencies, last.dependencies);
      assert seq(n, i requires 0 <= i < n => ordered[i].dependencies) == dependencies + [last.dependencies];
    }
  }

  lemma {:induction false} NamesAreFlat(ordered: seq<Receipt>)
    ensures var n := |ordered|;
            && Diagnostics(ordered)
               == Flat(seq(n, i requires 0 <= i < n => Named(ordered[i].name, ordered[i].diagnostics)))
            && Logs(ordered) == Flat(seq(n, i requires 0 <= i < n => Named(ordered[i].name, [ordered[i].log])))
  {
    if ordered == [] {
    } else {
      var n, init, last := |ordered|, ordered[..|ordered| - 1], ordered[|ordered| - 1];
      NamesAreFlat(init);
      LabelledIsNamed(last.name, last.diagnostics);
      var diagnostics := seq(n - 1, i requires 0 <= i < n - 1 => Named(init[i].name, init[i].diagnostics));
      FlatNext(diagnostics, Named(last.name, last.diagnostics));
      assert seq(n, i requires 0 <= i < n => Named(ordered[i].name, ordered[i].diagnostics))
          == diagnostics + [Named(last.name, last.diagnostics)];
      var logs := seq(n - 1, i requires 0 <= i < n - 1 => Named(init[i].name, [init[i].log]));
      FlatNext(logs, Named(last.name, [last.log]));
      assert seq(n, i requires 0 <= i < n => Named(ordered[i].name, [ordered[i].log]))
          == logs + [Named(last.name, [last.log])];
      assert Logs(ordered) == Logs(init) + [(last.name, last.log)];
      assert [last.log][1..] == [] && Named(last.name, []) == [];
      assert Named(last.name, [last.log]) == [(last.name, last.log)];
    }
  }

  lemma {:induction false} MergedGathers(ordered: seq<Receipt>)
    ensures forall merged :: Gathers(ordered, merged) <==> merged == MergedOf(ordered)
  {
    hide Checks, Dependencies, Diagnostics, Logs, Flat, Named;
    ListsAreFlat(ordered);
    NamesAreFlat(ordered);
  }

  /** The merge of a set of receipts, whatever order they come in. */
  ghost predicate IsMerge(expected: seq<string>, receipts: seq<Receipt>, merged: Merged)
  {
    && Complete(expected, receipts) && IsOrdered(expected, receipts, merged.receipts)
    && DistinctKeys(merged.dependencies) && Gathers(merged.receipts, merged)
  }

  // ---------------------------------------------------------------- the merge

  ghost predicate Indexes(receipts: seq<Receipt>, byName: map<string, Receipt>)
  {
    && (forall receipt :: receipt in receipts ==> receipt.name in byName && byName[receipt.name] == receipt)
    && forall name :: name in byName ==> byName[name] in receipts && byName[name].name == name
  }

  /** The first loop: the receipts by name, unless a name comes twice or is not expected. */
  method Index(expected: seq<string>, receipts: seq<Receipt>) returns (byName: Option<map<string, Receipt>>)
    ensures byName.Some? <==>
              Distinct(NamesOf(receipts)) && forall name :: name in NamesOf(receipts) ==> name in expected
    ensures byName.Some? ==> Indexes(receipts, byName.value)
  {
    hide Indexes, Distinct;
    var table: map<string, Receipt> := map[];
    NothingIndexed();
    for i := 0 to |receipts|
      invariant Indexes(receipts[..i], table) && Distinct(NamesOf(receipts[..i]))
      invariant forall k :: 0 <= k < i ==> receipts[k].name in expected
    {
      var receipt := receipts[i];
      NextIndexed(receipts, i, table);
      if receipt.name in table {
        return None;
      }
      if receipt.name !in expected {
        assert NamesOf(receipts)[i] == receipt.name;
        return None;
      }
      table := table[receipt.name := receipt];
    }
    assert receipts[..|receipts|] == receipts;
    return Some(table);
  }

  lemma {:induction false} NothingIndexed()
    ensures Indexes([], map[]) && Distinct(NamesOf([]))
  {
  }

  lemma {:induction false} NextIndexed(receipts: seq<Receipt>, i: nat, table: map<string, Receipt>)
    requires i < |receipts| && Indexes(receipts[..i], table) && Distinct(NamesOf(receipts[..i]))
    ensures var name := receipts[i].name;
            if name in table then !Distinct(NamesOf(receipts))
            else Indexes(receipts[..i + 1], table[name := receipts[i]]) && Distinct(NamesOf(receipts[..i + 1]))
  {
    assert receipts[..i + 1] == receipts[..i] + [receipts[i]];
    var name := receipts[i].name;
    if name in table {
      var k :| 0 <= k < i && receipts[..i][k] == table[name];
      assert NamesOf(receipts)[k] == NamesOf(receipts)[i];
    } else {
      forall k | 0 <= k < i
        ensures receipts[k].name != name
      {
        assert receipts[k] in receipts[..i];
      }
      forall j, k | 0 <= j < k < i
        ensures receipts[j].name != receipts[k].name
      {
        assert NamesOf(receipts[..i])[j] != NamesOf(receipts[..i])[k];
      }
    }
  }

  /** The first reason why receipts cannot be merged. */
  ghost predicate Explains(expected: seq<string>, receipts: seq<Receipt>, error: MergeError)
  {
    var asExpected :=
      Distinct(NamesOf(receipts)) && forall name :: name in NamesOf(receipts) ==> name in expected;
    match error
    case ProfileFailed => false
    case UnexpectedIdentity => !asExpected
    case MissingReceipt => asExpected && !Complete(expected, receipts)
    case RepeatedDependency => Complete(expected, receipts)
  }

  /** Merges the receipts in the expected order, or says why they are not the expected ones. */
  method Merge(expected: seq<string>, receipts: seq<Receipt>) returns (result: Result<Merged, MergeError>)
    ensures result.Success? ==> IsMerge(expected, receipts, result.value)
    ensures result.Failure? ==> !exists merged :: IsMerge(expected, receipts, merged)
    ensures result.Failure? ==> Explains(expected, receipts, result.error)
  {
    hide Checks, Diagnostics, Logs, Gathers;
    var byName := Index(expected, receipts);
    if byName.None? {
      return Failure(UnexpectedIdentity);
    }
    if (exists i :: 0 <= i < |expected| && expected[i] !in byName.value) || |receipts| != |expected| {
      NamesMissing(expected, receipts, byName.value);
      return Failure(MissingReceipt);
    }
    CompleteIndex(expected, receipts, byName.value);
    var ordered := seq(|expected|, i requires 0 <= i < |expected| => byName.value[expected[i]]);
    assert IsOrdered(expected, receipts, ordered);
    var repeated := Repeats(Dependencies(ordered));
    if repeated {
      forall merged | IsMerge(expected, receipts, merged)
        ensures false
      {
        OrderIsUnique(expected, receipts, receipts, merged.receipts, ordered);
        MergedGathers(ordered);
      }
      return Failure(RepeatedDependency);
    }
    MergedGathers(ordered);
    return Success(MergedOf(ordered));
  }

  /** The loop that fills the table of dependencies: a name must not come again. */
  method Repeats(pairs: seq<(string, string)>) returns (repeated: bool)
    ensures repeated <==> !DistinctKeys(pairs)
  {
    var names: set<string> := {};
    for i := 0 to |pairs|
      invariant DistinctKeys(pairs[..i])
      invariant forall k :: 0 <= k < i ==> pairs[k].0 in names
      invariant forall name :: name in names ==> exists k :: 0 <= k < i && pairs[k].0 == name
    {
      if pairs[i].0 in names {
        return true;
      }
      names := names + {pairs[i].0};
    }
    assert pairs[..|pairs|] == pairs;
    return false;
  }

  lemma {:induction false} NameInside(receipts: seq<Receipt>, name: string)
    ensures name in NamesOf(receipts) <==> exists receipt :: receipt in receipts && receipt.name == name
  {
    if receipt :| receipt in receipts && receipt.name == name {
      var i :| 0 <= i < |receipts| && receipts[i] == receipt;
      assert NamesOf(receipts)[i] == name;
    }
    if name in NamesOf(receipts) {
      var i :| 0 <= i < |receipts| && NamesOf(receipts)[i] == name;
      assert receipts[i] in receipts;
    }
  }

  lemma {:induction false} NamesMissing(expected: seq<string>, receipts: seq<Receipt>, byName: map<string, Receipt>)
    requires Indexes(receipts, byName)
    requires (exists i :: 0 <= i < |expected| && expected[i] !in byName) || |receipts| != |expected|
    ensures !Complete(expected, receipts)
  {
    if i :| 0 <= i < |expected| && expected[i] !in byName {
      NameInside(receipts, expected[i]);
      assert expected[i] in expected;
    }
  }

  lemma {:induction false} CompleteIndex(expected: seq<string>, receipts: seq<Receipt>, byName: map<string, Receipt>)
    requires Indexes(receipts, byName) && Distinct(NamesOf(receipts))
    requires forall name :: name in NamesOf(receipts) ==> name in expected
    requires forall i :: 0 <= i < |expected| ==> expected[i] in byName
    requires |receipts| == |expected|
    ensures Complete(expected, receipts)
  {
    forall name | name in expected
      ensures name in NamesOf(receipts)
    {
      assert byName[name] in receipts;
      NameInside(receipts, name);
    }
  }

  // ---------------------------------------------------------------- order does not matter

  /** A receipt whose name occurs once is there once; one at two places is there twice. */
  lemma {:induction false} Occurrences(receipts: seq<Receipt>, k: nat)
    requires k < |receipts|
    ensures Distinct(NamesOf(receipts)) ==> multiset(receipts)[receipts[k]] == 1
    ensures receipts[k] in receipts[..k] ==> multiset(receipts)[receipts[k]] > 1
  {
    assert receipts == receipts[..k] + [receipts[k]] + receipts[k + 1..];
    if Distinct(NamesOf(receipts)) {
      forall j | 0 <= j < |receipts| && j != k
        ensures receipts[j] != receipts[k]
      {
        assert NamesOf(receipts)[j] != NamesOf(receipts)[k];
      }
      assert receipts[k] !in receipts[..k] && receipts[k] !in receipts[k + 1..];
    }
  }

  lemma {:induction false} SameName(receipts: seq<Receipt>, a: Receipt, b: Receipt)
    requires Distinct(NamesOf(receipts)) && a in receipts && b in receipts && a.name == b.name
    ensures a == b
  {
    var j: nat :| j < |receipts| && receipts[j] == a;
    var k: nat :| k < |receipts| && receipts[k] == b;
    assert NamesOf(receipts)[j] == NamesOf(receipts)[k];
  }

  lemma {:induction false} SameReceipts(a: seq<Receipt>, b: seq<Receipt>)
    requires multiset(a) == multiset(b)
    ensures |a| == |b|
    ensures forall receipt :: receipt in a <==> receipt in b
    ensures forall name :: name in NamesOf(a) <==> name in NamesOf(b)
  {
    assert |a| == |multiset(a)| == |multiset(b)| == |b|;
    forall receipt
      ensures receipt in a <==> receipt in b
    {
      assert receipt in multiset(a) <==> receipt in multiset(b);
    }
    forall name
      ensures name in NamesOf(a) <==> name in NamesOf(b)
    {
      NameInside(a, name);
      NameInside(b, name);
    }
  }

  lemma {:induction false} DistinctInAnyOrder(a: seq<Receipt>, b: seq<Receipt>)
    requires multiset(a) == multiset(b) && Distinct(NamesOf(a))
    ensures Distinct(NamesOf(b))
  {
    SameReceipts(a, b);
    forall j, k | 0 <= j < k < |b|
      ensures b[j].name != b[k].name
    {
      if b[j].name == b[k].name {
        assert b[j] in b && b[k] in b;
        SameName(a, b[j], b[k]);
        assert b[..k][j] == b[k];
        Occurrences(b, k);
        var i :| 0 <= i < |a| && a[i] == b[k];
        Occurrences(a, i);
      }
    }
  }

  /** The same receipts, in any two orders, have one expected order. */
  lemma {:induction false} OrderIsUnique(
    expected: seq<string>, a: seq<Receipt>, b: seq<Receipt>, ordered: seq<Receipt>, ordered': seq<Receipt>)
    requires Distinct(NamesOf(a)) && multiset(a) == multiset(b)
    requires IsOrdered(expected, a, ordered) && IsOrdered(expected, b, ordered')
    ensures ordered == ordered'
  {
    hide Distinct;
    SameReceipts(a, b);
    assert |NamesOf(ordered)| == |expected| == |NamesOf(ordered')|;
    forall i | 0 <= i < |expected|
      ensures ordered[i] == ordered'[i]
    {
      assert NamesOf(ordered)[i] == NamesOf(ordered')[i];
      assert ordered[i] in ordered && ordered'[i] in ordered';
      SameName(a, ordered[i], ordered'[i]);
    }
  }

  /** The merge is the same for every order in which the receipts arrive. */
  lemma {:induction false} MergeIgnoresOrder(expected: seq<string>, a: seq<Receipt>, b: seq<Receipt>, merged: Merged)
    requires multiset(a) == multiset(b) && IsMerge(expected, a, merged)
    ensures IsMerge(expected, b, merged)
    ensures forall merged' :: IsMerge(expected, b, merged') ==> merged' == merged
  {
    hide MergedOf, Gathers, DistinctKeys, Distinct;
    SameReceipts(a, b);
    DistinctInAnyOrder(a, b);
    forall merged' | IsMerge(expected, b, merged')
      ensures merged' == merged
    {
      OrderIsUnique(expected, a, b, merged.receipts, merged'.receipts);
      MergedGathers(merged.receipts);
    }
  }

  // ---------------------------------------------------------------- a scheduled run

  /** What the completed profile tasks returned. */
  function ReceiptsOf(outcomes: seq<Scheduling.Outcome<Receipt>>): seq<Receipt>
  {
    if outcomes == [] then []
    else
      var last := outcomes[|outcomes| - 1];
      ReceiptsOf(outcomes[..|outcomes| - 1]) + if last.value.Some? then [last.value.value] else []
  }

  ghost predicate AllSucceed(tasks: seq<Scheduling.Task<Receipt>>)
  {
    forall i :: 0 <= i < |tasks| ==> tasks[i].work.Returns?
  }

  /** What the tasks return, in the order of the tasks. */
  ghost function Returned(tasks: seq<Scheduling.Task<Receipt>>): seq<Receipt>
    requires AllSucceed(tasks)
  {
    seq(|tasks|, i requires 0 <= i < |tasks| => tasks[i].work.value)
  }

  lemma {:induction false} ReceiptsAreReturned(tasks: seq<Scheduling.Task<Receipt>>)
    requires AllSucceed(tasks)
    ensures ReceiptsOf(Scheduling.Outcomes(tasks)) == Returned(tasks)
  {
    if tasks == [] {
    } else {
      var init := tasks[..|tasks| - 1];
      ReceiptsAreReturned(init);
      assert Scheduling.Outcomes(tasks)[..|tasks| - 1] == Scheduling.Outcomes(init);
      assert Returned(tasks) == Returned(init) + [tasks[|tasks| - 1].work.value];
    }
  }

  /**
   Runs the profile tasks and, if none failed, merges what they return. The result is the merge in
   the order of the tasks, whatever order the scheduler starts and completes them in.
   */
  method RunAndMerge(tasks: seq<Scheduling.Task<Receipt>>, budget: Scheduling.Budget, expected: seq<string>)
    returns (scheduled: bool, result: Result<Merged, MergeError>)
    ensures scheduled <==> Scheduling.Admissible(tasks, budget)
    ensures scheduled ==> (result == Failure(ProfileFailed) <==> !AllSucceed(tasks))
    ensures scheduled && AllSucceed(tasks) ==>
              if result.Success? then IsMerge(expected, Returned(tasks), result.value)
              else Explains(expected, Returned(tasks), result.error)
                   && !exists merged :: IsMerge(expected, Returned(tasks), merged)
  {
    hide IsMerge;
    result := Failure(MissingReceipt);
    var outcomes, trace, rounds := Scheduling.RunTasks(tasks, budget);
    scheduled := outcomes.Success?;
    if scheduled {
      if exists i :: 0 <= i < |outcomes.value| && outcomes.value[i].error.Some? {
        ghost var i :| 0 <= i < |outcomes.value| && outcomes.value[i].error.Some?;
        assert tasks[i].work.Raises?;
        return scheduled, Failure(ProfileFailed);
      }
      assert AllSucceed(tasks) by {
        forall i | 0 <= i < |tasks|
          ensures tasks[i].work.Returns?
        {
          assert outcomes.value[i].error.None?;
        }
      }
      ReceiptsAreReturned(tasks);
      result := Merge(expected, ReceiptsOf(outcomes.value));
    }
  }
}
