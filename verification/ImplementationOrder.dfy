/**
 The canonical order of rustdoc's implementation lists: within one list, the expandable and the
 plain implementations keep their places, and each of the two runs is sorted by the stable id of
 its implementations.
 */
module ImplementationOrder {
  import opened Wrappers
  import opened HtmlDocument
  import opened LinkProjection

  datatype OrderError = SectionWithoutId | SummaryNotUnique | ToggleWithoutId | StrayText | UnknownElement | RepeatedId

  const DETAILS := "details"
  const SECTION := "section"

  // ---------------------------------------------------------------- keys

  /** Order of strings by character. */
  predicate Before(a: string, b: string)
  {
    b != "" && (a == "" || a[0] < b[0] || (a[0] == b[0] && Before(a[1..], b[1..])))
  }

  /** They differ first where `a` ends or has the smaller character. */
  ghost predicate Precedes(a: string, b: string)
  {
    exists k :: 0 <= k <= |a| && k < |b| && a[..k] == b[..k] && (k == |a| || a[k] < b[k])
  }

  lemma {:induction false} BeforePrecedes(a: string, b: string)
    requires Before(a, b)
    ensures Precedes(a, b)
  {
    if a == "" || a[0] < b[0] {
      assert a[..0] == b[..0];
    } else {
      BeforePrecedes(a[1..], b[1..]);
      var k :| 0 <= k <= |a[1..]| && k < |b[1..]| && a[1..][..k] == b[1..][..k]
               && (k == |a[1..]| || a[1..][k] < b[1..][k]);
      assert a[..k + 1] == [a[0]] + a[1..][..k] && b[..k + 1] == [b[0]] + b[1..][..k];
    }
  }

  lemma {:induction false} BeforeIsTotal(a: string, b: string)
    ensures a == b || Before(a, b) || Before(b, a)
    ensures !(Before(a, b) && Before(b, a)) && !Before(a, a)
  {
    if a != "" && b != "" && a[0] == b[0] {
      BeforeIsTotal(a[1..], b[1..]);
      assert a == [a[0]] + a[1..] && b == [b[0]] + b[1..];
    }
    if a == "" {
    } else {
      BeforeIsTotal(a[1..], a[1..]);
    }
  }

  lemma {:induction false} BeforeIsTransitive(a: string, b: string, c: string)
    requires Before(a, b) && Before(b, c)
    ensures Before(a, c)
  {
    if a != "" && a[0] == b[0] == c[0] {
      BeforeIsTransitive(a[1..], b[1..], c[1..]);
    }
  }

  predicate IsNamedSection(item: Forest)
  {
    item.Element? && item.tag == SECTION && HasClass(item.attrs, "impl")
  }

  function SectionId(section: Forest): Option<string>
    requires section.Element?
  {
    var id := ValueOf(section.attrs, "id");
    if id.Some? && id.value == "" then None else id
  }

  /** The stable id of an implementation: its own, or that of the one section in its one summary. */
  function Identity(item: Forest): Result<string, OrderError>
    requires item.Element?
  {
    if IsNamedSection(item) then
      if SectionId(item).None? then Failure(SectionWithoutId) else Success(SectionId(item).value)
    else if DirectCount(item.children, "summary") != 1 then Failure(SummaryNotUnique)
    else
      var summary := Direct(item.children, "summary");
      if DirectCount(summary.children, SECTION) != 1 then Failure(ToggleWithoutId)
      else
        var id := SectionId(Direct(summary.children, SECTION));
        if id.None? then Failure(ToggleWithoutId) else Success(id.value)
  }

  /** The identity, where it has been checked to exist. */
  function Key(item: Forest): string
  {
    if item.Element? && Identity(item).Success? then Identity(item).value else ""
  }

  predicate Tagged(item: Forest, tag: string)
  {
    item.Element? && item.tag == tag
  }

  predicate IsImplementation(item: Forest)
  {
    item.Element? && (IsToggle(item.tag, item.attrs) || IsNamedSection(item))
  }

  predicate IsBlank(item: Forest)
  {
    item.Chars? && TrimLeft(item.text) == ""
  }

  /** The first `n` items are identified apart. */
  ghost predicate KeysDiffer(items: seq<Forest>, n: nat)
    requires n <= |items|
  {
    forall i, j :: 0 <= i < j < n && items[i].Element? && items[j].Element? ==> Key(items[i]) != Key(items[j])
  }

  /** Every item is blank text or an identified implementation, and the identities are distinct. */
  ghost predicate Checked(items: seq<Forest>)
  {
    && (forall i :: 0 <= i < |items| ==>
                      if items[i].Element? then IsImplementation(items[i]) && Identity(items[i]).Success?
                      else IsBlank(items[i]))
    && KeysDiffer(items, |items|)
  }

  // ---------------------------------------------------------------- what the checks mean

  ghost predicate IsSectionOf(item: Forest)
  {
    item.Element? && item.tag == "section" && HasClass(item.attrs, "impl")
  }

  /** `id` is the stable id of an implementation: its own, or that of the one section in its one summary. */
  ghost predicate IdentifiedBy(item: Forest, id: string)
  {
    && item.Element? && id != ""
    && if IsSectionOf(item) then ValueOf(item.attrs, "id") == Some(id)
       else && DirectCount(item.children, "summary") == 1
            && var content := Direct(item.children, "summary").children;
            && DirectCount(content, "section") == 1
            && ValueOf(Direct(content, "section").attrs, "id") == Some(id)
  }

  /** Text of white space only, or a toggle or a section of an implementation. */
  ghost predicate Belongs(item: Forest)
  {
    if item.Element? then (item.tag == "details" && HasClass(item.attrs, "toggle")) || IsSectionOf(item)
    else item.Chars? && forall i :: 0 <= i < |item.text| ==> IsSpace(item.text[i])
  }

  /** Only white space between implementations, each with an id of its own. */
  ghost predicate Orderable(items: seq<Forest>)
  {
    && (forall i :: 0 <= i < |items| ==> Belongs(items[i]))
    && (forall i :: 0 <= i < |items| && items[i].Element? ==> exists id :: IdentifiedBy(items[i], id))
    && forall i, j, id :: 0 <= i < j < |items| ==> !(IdentifiedBy(items[i], id) && IdentifiedBy(items[j], id))
  }

  lemma {:induction false} TrimmedBlank(s: string)
    ensures TrimLeft(s) == "" <==> forall i :: 0 <= i < |s| ==> IsSpace(s[i])
  {
    if s == "" {
    } else if IsSpace(s[0]) {
      TrimmedBlank(s[1..]);
      assert forall i :: 1 <= i < |s| ==> s[i] == s[1..][i - 1];
    }
  }

  lemma {:induction false} BelongsIfInspected(item: Forest)
    ensures Belongs(item) <==> if item.Element? then IsImplementation(item) else IsBlank(item)
  {
    if item.Chars? {
      TrimmedBlank(item.text);
    }
  }

  lemma {:induction false} IdentityIdentifies(item: Forest, id: string)
    requires item.Element?
    ensures Identity(item) == Success(id) <==> IdentifiedBy(item, id)
    ensures Identity(item).Success? ==> IdentifiedBy(item, Key(item))
  {
    hide HasClass, ValueOf;
  }

  lemma {:induction false} CheckedIsOrderable(items: seq<Forest>)
    ensures Checked(items) <==> Orderable(items)
  {
    forall i | 0 <= i < |items|
      ensures Belongs(items[i]) <==> if items[i].Element? then IsImplementation(items[i]) else IsBlank(items[i])
    {
      BelongsIfInspected(items[i]);
    }
    forall i, id | 0 <= i < |items| && items[i].Element?
      ensures Identity(items[i]) == Success(id) <==> IdentifiedBy(items[i], id)
      ensures Identity(items[i]).Success? ==> Key(items[i]) == Identity(items[i]).value
    {
      IdentityIdentifies(items[i], id);
    }
    hide Belongs, Identity, IdentifiedBy, IsImplementation, IsBlank, Key;
    if Orderable(items) {
      forall i | 0 <= i < |items| && items[i].Element?
        ensures Identity(items[i]).Success?
      {
        var id :| IdentifiedBy(items[i], id);
      }
      forall i, j | 0 <= i < j < |items| && items[i].Element? && items[j].Element?
        ensures Key(items[i]) != Key(items[j])
      {
        assert IdentifiedBy(items[i], Key(items[i]));
      }
    }
    if Checked(items) {
      OrderableIfChecked(items);
    }
  }

  lemma {:induction false} OrderableIfChecked(items: seq<Forest>)
    requires Checked(items)
    ensures Orderable(items)
  {
    forall i | 0 <= i < |items|
      ensures Belongs(items[i])
      ensures items[i].Element? ==> IdentifiedBy(items[i], Key(items[i]))
    {
      BelongsIfInspected(items[i]);
      if items[i].Element? {
        IdentityIdentifies(items[i], Key(items[i]));
      }
    }
    forall i, j, id | 0 <= i < j < |items|
      ensures !(IdentifiedBy(items[i], id) && IdentifiedBy(items[j], id))
    {
      if items[i].Element? && items[j].Element? {
        IdentityIdentifies(items[i], id);
        IdentityIdentifies(items[j], id);
      }
    }
  }

  ghost predicate IsIdentified(item: Forest)
  {
    exists id :: IdentifiedBy(item, id)
  }

  /** Item `i` is the first implementation without an id, for the reason that `error` gives. */
  ghost predicate LacksId(items: seq<Forest>, i: nat, error: OrderError)
  {
    && i < |items| && items[i].Element? && !IsIdentified(items[i])
    && (forall j :: 0 <= j < i && items[j].Element? ==> IsIdentified(items[j]))
    && error == if IsSectionOf(items[i]) then SectionWithoutId
                else if DirectCount(items[i].children, "summary") != 1 then SummaryNotUnique
                else ToggleWithoutId
  }

  /** `error` is the first fault: stray text before unknown elements, missing ids before repeated ones. */
  ghost predicate Faults(items: seq<Forest>, error: OrderError)
  {
    var stray := exists i :: 0 <= i < |items| && !items[i].Element? && !Belongs(items[i]);
    var unknown := exists i :: 0 <= i < |items| && items[i].Element? && !Belongs(items[i]);
    match error
    case StrayText => stray
    case UnknownElement => !stray && unknown
    case RepeatedId =>
      && !stray && !unknown
      && (forall i :: 0 <= i < |items| && items[i].Element? ==> IsIdentified(items[i]))
      && exists i, j, id :: 0 <= i < j < |items| && IdentifiedBy(items[i], id) && IdentifiedBy(items[j], id)
    case _ => !stray && !unknown && exists i :: LacksId(items, i, error)
  }

  // ---------------------------------------------------------------- sorting a run

  ghost predicate AllBefore(items: seq<Forest>, key: string)
  {
    forall item :: item in items ==> Before(Key(item), key)
  }

  ghost predicate Ascending(items: seq<Forest>)
  {
    items == []
    || (Ascending(items[..|items| - 1]) && AllBefore(items[..|items| - 1], Key(items[|items| - 1])))
  }

  ghost predicate NoneWith(items: seq<Forest>, key: string)
  {
    forall item :: item in items ==> Key(item) != key
  }

  ghost predicate DistinctKeys(items: seq<Forest>)
  {
    items == []
    || (DistinctKeys(items[..|items| - 1]) && NoneWith(items[..|items| - 1], Key(items[|items| - 1])))
  }

  /** Puts an item behind those that do not come after it, as a stable sort does. */
  function Insert(sorted: seq<Forest>, item: Forest): (r: seq<Forest>)
    ensures |r| == |sorted| + 1
  {
    if sorted == [] || !Before(Key(item), Key(sorted[|sorted| - 1])) then sorted + [item]
    else Insert(sorted[..|sorted| - 1], item) + [sorted[|sorted| - 1]]
  }

  function Sorted(items: seq<Forest>): (r: seq<Forest>)
    ensures |r| == |items|
  {
    if items == [] then [] else Insert(Sorted(items[..|items| - 1]), items[|items| - 1])
  }

  lemma {:induction false} Snoc(items: seq<Forest>)
    requires items != []
    ensures items == items[..|items| - 1] + [items[|items| - 1]]
    ensures multiset(items) == multiset(items[..|items| - 1]) + multiset{items[|items| - 1]}
  {
    assert items == items[..|items| - 1] + [items[|items| - 1]];
  }

  lemma {:induction false} InsertPermutes(sorted: seq<Forest>, item: Forest)
    ensures multiset(Insert(sorted, item)) == multiset(sorted) + multiset{item}
  {
    if sorted != [] && Before(Key(item), Key(sorted[|sorted| - 1])) {
      InsertPermutes(sorted[..|sorted| - 1], item);
      Snoc(sorted);
    }
  }

  lemma {:induction false} SortedPermutes(items: seq<Forest>)
    ensures multiset(Sorted(items)) == multiset(items)
  {
    if items == [] {
    } else {
      SortedPermutes(items[..|items| - 1]);
      InsertPermutes(Sorted(items[..|items| - 1]), items[|items| - 1]);
      Snoc(items);
    }
  }

  lemma {:induction false} InsertAscends(sorted: seq<Forest>, item: Forest)
    requires Ascending(sorted) && NoneWith(sorted, Key(item))
    ensures Ascending(Insert(sorted, item))
  {
    hide Key, Before;
    if sorted == [] {
      return;
    }
    var init, last := sorted[..|sorted| - 1], sorted[|sorted| - 1];
    BeforeIsTotal(Key(item), Key(last));
    if Before(Key(item), Key(last)) {
      InsertAscends(init, item);
      InsertPermutes(init, item);
      forall x | x in Insert(init, item)
        ensures Before(Key(x), Key(last))
      {
        assert x in multiset(Insert(init, item));
      }
      assert Insert(sorted, item)[..|sorted|] == Insert(init, item);
    } else {
      forall x | x in sorted
        ensures Before(Key(x), Key(item))
      {
        Snoc(sorted);
        if x in init {
          BeforeIsTransitive(Key(x), Key(last), Key(item));
        }
      }
      assert (sorted + [item])[..|sorted|] == sorted;
    }
  }

  lemma {:induction false} SortedAscends(items: seq<Forest>)
    requires DistinctKeys(items)
    ensures Ascending(Sorted(items))
  {
    hide Key, Before, Ascending;
    if items == [] {
      AscendingEmpty();
    } else {
      var init := items[..|items| - 1];
      SortedAscends(init);
      SortedPermutes(init);
      forall x | x in Sorted(init)
        ensures x in init
      {
        assert x in multiset(Sorted(init));
      }
      InsertAscends(Sorted(init), items[|items| - 1]);
    }
  }

  lemma {:induction false} AscendingEmpty()
    ensures Ascending([])
  {
  }

  /** Two ascending lists of the same items are equal. */
  lemma {:induction false} AscendingIsUnique(a: seq<Forest>, b: seq<Forest>)
    requires Ascending(a) && Ascending(b) && multiset(a) == multiset(b)
    ensures a == b
  {
    hide Key, Before;
    assert |a| == |multiset(a)| == |multiset(b)| == |b|;
    if a == [] {
    } else {
      var n := |a| - 1;
      Snoc(a);
      Snoc(b);
      assert a[n] in multiset(b) && b[n] in multiset(a);
      assert a[n] in b[..n] || a[n] == b[n];
      assert b[n] in a[..n] || a[n] == b[n];
      BeforeIsTotal(Key(a[n]), Key(b[n]));
      assert a[n] == b[n];
      assert multiset(a[..n]) == multiset(a) - multiset{a[n]} && multiset(b[..n]) == multiset(b) - multiset{b[n]};
      AscendingIsUnique(a[..n], b[..n]);
    }
  }

  // ---------------------------------------------------------------- the runs of a list

  /** The implementations of one kind, in the order of the list. */
  function Run(items: seq<Forest>, tag: string): seq<Forest>
  {
    if items == [] then []
    else Run(items[..|items| - 1], tag) + (if Tagged(items[|items| - 1], tag) then [items[|items| - 1]] else [])
  }

  /** The places of a kind, filled from the first to the last with the given items. */
  function Filled(items: seq<Forest>, tag: string, run: seq<Forest>): (r: seq<Forest>)
    requires |run| == |Run(items, tag)|
    ensures |r| == |items|
  {
    if items == [] then []
    else if Tagged(items[|items| - 1], tag) then
      Filled(items[..|items| - 1], tag, run[..|run| - 1]) + [run[|run| - 1]]
    else Filled(items[..|items| - 1], tag, run) + [items[|items| - 1]]
  }

  /** A list with one run sorted in its places. */
  function WithSortedRun(items: seq<Forest>, tag: string): (r: seq<Forest>)
    ensures |r| == |items|
  {
    Filled(items, tag, Sorted(Run(items, tag)))
  }

  /** A list with both runs sorted. */
  function Canonical(items: seq<Forest>): (r: seq<Forest>)
    ensures |r| == |items|
  {
    WithSortedRun(WithSortedRun(items, DETAILS), SECTION)
  }

  /** Sorts the run of a kind in place: finds its places, sorts what they hold, writes it back. */
  method SortRun(children: array<Forest>, tag: string)
    modifies children
    ensures children[..] == WithSortedRun(old(children[..]), tag)
  {
    hide Sorted, Key, Tagged;
    ghost var was := children[..];
    var positions: seq<nat> := [];
    var implementations: seq<Forest> := [];
    for offset := 0 to children.Length
      invariant children[..] == was
      invariant implementations == Run(was[..offset], tag)
      invariant Places(was[..offset], tag, positions)
    {
      assert was[..offset + 1][..offset] == was[..offset];
      if Tagged(children[offset], tag) {
        positions := positions + [offset];
        implementations := implementations + [children[offset]];
      }
    }
    assert was[..children.Length] == was;
    var ordered := Sorted(implementations);
    PlacesCount(was, tag, positions);
    PlacesInside(was, tag, positions);
    for k := 0 to |positions|
      invariant children[..] == Written(was, positions[..k], ordered[..k])
    {
      children[positions[k]] := ordered[k];
      assert positions[..k + 1][..k] == positions[..k] && ordered[..k + 1][..k] == ordered[..k];
    }
    assert positions[..|positions|] == positions && ordered[..|positions|] == ordered;
    WrittenIsFilled(was, tag, positions, ordered);
  }

  /** The places of the kind, ascending. */
  ghost predicate Places(items: seq<Forest>, tag: string, positions: seq<nat>)
  {
    if items == [] then positions == []
    else if Tagged(items[|items| - 1], tag) then
      && positions != [] && positions[|positions| - 1] == |items| - 1
      && Places(items[..|items| - 1], tag, positions[..|positions| - 1])
    else Places(items[..|items| - 1], tag, positions)
  }

  lemma {:induction false} PlacesCount(items: seq<Forest>, tag: string, positions: seq<nat>)
    requires Places(items, tag, positions)
    ensures |positions| == |Run(items, tag)|
  {
    if items == [] {
    } else {
      PlacesCount(items[..|items| - 1], tag,
                  if Tagged(items[|items| - 1], tag) then positions[..|positions| - 1] else positions);
    }
  }

  lemma {:induction false} PlacesInside(items: seq<Forest>, tag: string, positions: seq<nat>)
    requires Places(items, tag, positions)
    ensures forall k :: 0 <= k < |positions| ==> positions[k] < |items|
  {
    if items == [] {
    } else {
      PlacesInside(items[..|items| - 1], tag,
                   if Tagged(items[|items| - 1], tag) then positions[..|positions| - 1] else positions);
    }
  }

  /** The list after the given writes. */
  ghost function Written(items: seq<Forest>, positions: seq<nat>, values: seq<Forest>): (r: seq<Forest>)
    requires |positions| == |values|
    ensures |r| == |items|
  {
    if positions == [] then items
    else
      var n := |positions| - 1;
      var before := Written(items, positions[..n], values[..n]);
      if positions[n] < |items| then before[positions[n] := values[n]] else before
  }

  lemma {:induction false} WrittenIsFilled(items: seq<Forest>, tag: string, positions: seq<nat>, run: seq<Forest>)
    requires Places(items, tag, positions) && |positions| == |run| == |Run(items, tag)|
    ensures Written(items, positions, run) == Filled(items, tag, run)
  {
    if items == [] {
      return;
    }
    var n := |items| - 1;
    var init, last := items[..n], items[n];
    if Tagged(last, tag) {
      var m := |positions| - 1;
      WrittenIsFilled(init, tag, positions[..m], run[..m]);
      PlacesInside(init, tag, positions[..m]);
      WrittenBelow(init, last, positions[..m], run[..m]);
      assert items == init + [last];
    } else {
      WrittenIsFilled(init, tag, positions, run);
      PlacesInside(init, tag, positions);
      WrittenBelow(init, last, positions, run);
      assert items == init + [last];
    }
  }

  /** Writes to places of a list leave an item after it alone. */
  lemma {:induction false} WrittenBelow(init: seq<Forest>, last: Forest, positions: seq<nat>, values: seq<Forest>)
    requires |positions| == |values|
    requires forall k :: 0 <= k < |positions| ==> positions[k] < |init|
    ensures Written(init + [last], positions, values) == Written(init, positions, values) + [last]
  {
    if positions == [] {
    } else {
      var n := |positions| - 1;
      WrittenBelow(init, last, positions[..n], values[..n]);
    }
  }

  // ---------------------------------------------------------------- what canonicalizing keeps

  lemma {:induction false} RunIsTagged(items: seq<Forest>, tag: string)
    ensures forall item :: item in Run(items, tag) ==> Tagged(item, tag) && item in items
  {
    if items == [] {
    } else {
      RunIsTagged(items[..|items| - 1], tag);
    }
  }

  lemma {:induction false} RunSnoc(init: seq<Forest>, item: Forest, tag: string)
    ensures Run(init + [item], tag) == Run(init, tag) + (if Tagged(item, tag) then [item] else [])
  {
    assert (init + [item])[..|init|] == init;
  }

  lemma {:induction false} FilledSnoc(init: seq<Forest>, item: Forest, tag: string, run: seq<Forest>)
    requires |run| == |Run(init + [item], tag)|
    ensures if Tagged(item, tag) then
              run != [] && |Run(init, tag)| == |run| - 1
              && Filled(init + [item], tag, run) == Filled(init, tag, run[..|run| - 1]) + [run[|run| - 1]]
            else |Run(init, tag)| == |run| && Filled(init + [item], tag, run) == Filled(init, tag, run) + [item]
  {
    RunSnoc(init, item, tag);
    assert (init + [item])[..|init|] == init;
  }

  /** Filling the places of one kind gives that run, and leaves the other runs alone. */
  lemma {:induction false} RunsOfFilled(items: seq<Forest>, tag: string, run: seq<Forest>, other: string)
    requires |run| == |Run(items, tag)| && forall item :: item in run ==> Tagged(item, tag)
    ensures Run(Filled(items, tag, run), other) == if other == tag then run else Run(items, other)
  {
    if items == [] {
      return;
    }
    hide Run, Filled;
    var init, last := items[..|items| - 1], items[|items| - 1];
    Snoc(items);
    FilledSnoc(init, last, tag, run);
    RunSnoc(init, last, other);
    if Tagged(last, tag) {
      var m := |run| - 1;
      assert run[m] in run;
      RunsOfFilled(init, tag, run[..m], other);
      RunSnoc(Filled(init, tag, run[..m]), run[m], other);
      Snoc(run);
    } else {
      RunsOfFilled(init, tag, run, other);
      RunSnoc(Filled(init, tag, run), last, other);
    }
  }

  /** Both lists have the same items, but for elements with one of the tags, where only the tag agrees. */
  ghost predicate Agree(a: seq<Forest>, b: seq<Forest>, tags: set<string>)
  {
    && |a| == |b|
    && forall i :: 0 <= i < |a| ==>
                     a[i] == b[i] || (a[i].Element? && b[i].Element? && a[i].tag == b[i].tag && a[i].tag in tags)
  }

  lemma {:induction false} FilledAgrees(
    a: seq<Forest>, b: seq<Forest>, tags: set<string>, tag: string, run: seq<Forest>)
    requires Agree(a, b, tags) && |run| == |Run(a, tag)|
    ensures |Run(b, tag)| == |run|
    ensures Agree(Filled(a, tag, run), Filled(b, tag, run), tags - {tag})
  {
    if a == [] {
    } else {
      var n := |a| - 1;
      FilledAgrees(a[..n], b[..n], tags, tag, if Tagged(a[n], tag) then run[..|run| - 1] else run);
    }
  }

  lemma {:induction false} FilledKeepsTags(items: seq<Forest>, tag: string, run: seq<Forest>)
    requires |run| == |Run(items, tag)| && forall item :: item in run ==> Tagged(item, tag)
    ensures Agree(items, Filled(items, tag, run), {tag})
  {
    if items == [] {
    } else {
      var init, last := items[..|items| - 1], items[|items| - 1];
      FilledKeepsTags(init, tag, if Tagged(last, tag) then run[..|run| - 1] else run);
      if Tagged(last, tag) {
        assert run[|run| - 1] in run;
      }
    }
  }

  /** Filling exchanges the run for the new one. */
  lemma {:induction false} FilledExchanges(items: seq<Forest>, tag: string, run: seq<Forest>)
    requires |run| == |Run(items, tag)|
    ensures multiset(Filled(items, tag, run)) + multiset(Run(items, tag)) == multiset(items) + multiset(run)
  {
    if items == [] {
      assert run == [];
      return;
    }
    hide Run, Filled, Tagged;
    var init, last := items[..|items| - 1], items[|items| - 1];
    Snoc(items);
    FilledSnoc(init, last, tag, run);
    RunSnoc(init, last, tag);
    if Tagged(last, tag) {
      var m := |run| - 1;
      FilledExchanges(init, tag, run[..m]);
      Snoc(run);
      BothSidesGain(multiset(Filled(init, tag, run[..m])), multiset(Run(init, tag)), multiset(init), multiset(run[..m]),
                    multiset{run[m]}, multiset{last});
    } else {
      FilledExchanges(init, tag, run);
      assert Run(items, tag) == Run(init, tag);
      BothSidesGain(multiset(Filled(init, tag, run)), multiset(Run(init, tag)), multiset(init), multiset(run),
                    multiset{last}, multiset{});
    }
  }

  lemma {:induction false} BothSidesGain(
    a: multiset<Forest>, b: multiset<Forest>, c: multiset<Forest>, d: multiset<Forest>,
    x: multiset<Forest>, y: multiset<Forest>)
    requires a + b == c + d
    ensures (a + x) + (b + y) == (c + y) + (d + x)
    ensures (a + x) + (b + y) == (c + x) + (d + y)
  {
    forall item
      ensures ((a + x) + (b + y))[item] == ((c + y) + (d + x))[item] == ((c + x) + (d + y))[item]
    {
      assert (a + b)[item] == (c + d)[item];
    }
  }

  /** Sorting one run keeps the items, their places by kind, and the other runs. */
  lemma {:induction false} SortedRunKeeps(items: seq<Forest>, tag: string, other: string)
    ensures multiset(WithSortedRun(items, tag)) == multiset(items)
    ensures Agree(items, WithSortedRun(items, tag), {tag})
    ensures Run(WithSortedRun(items, tag), other) == if other == tag then Sorted(Run(items, tag)) else Run(items, other)
  {
    hide Sorted, Run, Filled, Tagged;
    var run := Run(items, tag);
    SortedPermutes(run);
    RunIsTagged(items, tag);
    forall item | item in Sorted(run)
      ensures Tagged(item, tag)
    {
      assert item in multiset(run);
    }
    FilledExchanges(items, tag, Sorted(run));
    forall item
      ensures multiset(WithSortedRun(items, tag))[item] == multiset(items)[item]
    {
      assert (multiset(WithSortedRun(items, tag)) + multiset(run))[item] == (multiset(items) + multiset(run))[item];
    }
    FilledKeepsTags(items, tag, Sorted(run));
    RunsOfFilled(items, tag, Sorted(run), other);
  }

  lemma {:induction false} RunKeysDiffer(items: seq<Forest>, tag: string)
    requires KeysDiffer(items, |items|)
    ensures DistinctKeys(Run(items, tag))
  {
    hide Key;
    if items == [] {
    } else {
      var init, last := items[..|items| - 1], items[|items| - 1];
      RunKeysDiffer(init, tag);
      RunIsTagged(init, tag);
      if Tagged(last, tag) {
        assert Run(items, tag)[..|Run(init, tag)|] == Run(init, tag);
      } else {
        assert Run(items, tag) == Run(init, tag);
      }
    }
  }

  /** Of two implementations the earlier has the smaller id. */
  ghost predicate InIdOrder(run: seq<Forest>)
  {
    forall i, j, a, b :: 0 <= i < j < |run| && IdentifiedBy(run[i], a) && IdentifiedBy(run[j], b) ==> Precedes(a, b)
  }

  lemma {:induction false} AscendingPair(run: seq<Forest>, i: nat, j: nat)
    requires Ascending(run) && i < j < |run|
    ensures Before(Key(run[i]), Key(run[j]))
  {
    if j < |run| - 1 {
      AscendingPair(run[..|run| - 1], i, j);
    } else {
      assert run[..|run| - 1][i] in run[..|run| - 1];
    }
  }

  lemma {:induction false} AscendingIsIdOrder(run: seq<Forest>)
    requires Ascending(run)
    ensures InIdOrder(run)
  {
    hide Ascending, Before, Precedes;
    forall i, j, a, b | 0 <= i < j < |run| && IdentifiedBy(run[i], a) && IdentifiedBy(run[j], b)
      ensures Precedes(a, b)
    {
      IdentityIdentifies(run[i], a);
      IdentityIdentifies(run[j], b);
      AscendingPair(run, i, j);
      BeforePrecedes(a, b);
    }
  }

  lemma {:induction false} CanonicalAscends(items: seq<Forest>)
    requires Checked(items)
    ensures multiset(Canonical(items)) == multiset(items)
    ensures Agree(items, Canonical(items), {DETAILS, SECTION})
    ensures Ascending(Run(Canonical(items), DETAILS)) && Ascending(Run(Canonical(items), SECTION))
  {
    hide Run, Sorted, WithSortedRun, Ascending, DistinctKeys;
    var once := WithSortedRun(items, DETAILS);
    SortedRunKeeps(items, DETAILS, DETAILS);
    SortedRunKeeps(items, DETAILS, SECTION);
    SortedRunKeeps(once, SECTION, DETAILS);
    SortedRunKeeps(once, SECTION, SECTION);
    RunKeysDiffer(items, DETAILS);
    RunKeysDiffer(items, SECTION);
    SortedAscends(Run(items, DETAILS));
    SortedAscends(Run(items, SECTION));
  }

  /**
   Canonicalizing permutes the items; text stays where it is, each place keeps its kind of
   implementation, and both runs are in the order of their ids.
   */
  lemma {:induction false} CanonicalIsOrdered(items: seq<Forest>)
    requires Orderable(items)
    ensures multiset(Canonical(items)) == multiset(items)
    ensures Agree(items, Canonical(items), {DETAILS, SECTION})
    ensures InIdOrder(Run(Canonical(items), "details")) && InIdOrder(Run(Canonical(items), "section"))
  {
    CheckedIsOrderable(items);
    hide Orderable, Checked, Canonical, Agree, InIdOrder, Ascending, Run;
    CanonicalAscends(items);
    AscendingIsIdOrder(Run(Canonical(items), DETAILS));
    AscendingIsIdOrder(Run(Canonical(items), SECTION));
  }

  /** Sorting equal runs makes lists agree on one kind more. */
  lemma {:induction false} SortedRunsAgree(a: seq<Forest>, b: seq<Forest>, tags: set<string>, tag: string)
    requires Agree(a, b, tags) && Sorted(Run(a, tag)) == Sorted(Run(b, tag))
    ensures Agree(WithSortedRun(a, tag), WithSortedRun(b, tag), tags - {tag})
  {
    hide Run, Sorted, Filled, Agree;
    FilledAgrees(a, b, tags, tag, Sorted(Run(a, tag)));
  }

  /**
   The order in which the compiler listed the implementations leaves no trace: lists with the same
   places and the same implementations of each kind have one canonical form.
   */
  lemma {:induction false} CanonicalFormIsUnique(a: seq<Forest>, b: seq<Forest>)
    requires Orderable(a) && Orderable(b) && Agree(a, b, {DETAILS, SECTION})
    requires multiset(Run(a, DETAILS)) == multiset(Run(b, DETAILS))
    requires multiset(Run(a, SECTION)) == multiset(Run(b, SECTION))
    ensures Canonical(a) == Canonical(b)
  {
    assert DETAILS[0] != SECTION[0];
    CheckedIsOrderable(a);
    CheckedIsOrderable(b);
    SameSortedRuns(a, b, DETAILS, SECTION);
  }

  lemma {:induction false} SameSortedRuns(a: seq<Forest>, b: seq<Forest>, first: string, second: string)
    requires Checked(a) && Checked(b) && first != second && Agree(a, b, {first, second})
    requires multiset(Run(a, first)) == multiset(Run(b, first))
    requires multiset(Run(a, second)) == multiset(Run(b, second))
    ensures WithSortedRun(WithSortedRun(a, first), second) == WithSortedRun(WithSortedRun(b, first), second)
  {
    SameSortedRun(a, b, first);
    SameSortedRun(a, b, second);
    SortedRunKeeps(a, first, second);
    SortedRunKeeps(b, first, second);
    hide Checked, Run, Sorted, WithSortedRun, Agree;
    var a', b' := WithSortedRun(a, first), WithSortedRun(b, first);
    SortedRunsAgree(a, b, {first, second}, first);
    assert {first, second} - {first} == {second};
    SortedRunsAgree(a', b', {second}, second);
    assert {second} - {second} == {};
    AgreeOnAll(WithSortedRun(a', second), WithSortedRun(b', second));
  }

  lemma {:induction false} AgreeOnAll(a: seq<Forest>, b: seq<Forest>)
    requires Agree(a, b, {})
    ensures a == b
  {
  }

  lemma {:induction false} SameSortedRun(a: seq<Forest>, b: seq<Forest>, tag: string)
    requires Checked(a) && Checked(b) && multiset(Run(a, tag)) == multiset(Run(b, tag))
    ensures Sorted(Run(a, tag)) == Sorted(Run(b, tag))
  {
    RunKeysDiffer(a, tag);
    RunKeysDiffer(b, tag);
    hide Run, Sorted;
    SortedAscends(Run(a, tag));
    SortedAscends(Run(b, tag));
    SortedPermutes(Run(a, tag));
    SortedPermutes(Run(b, tag));
    AscendingIsUnique(Sorted(Run(a, tag)), Sorted(Run(b, tag)));
  }

  // ---------------------------------------------------------------- the whole pass over a list

  method HasRepeatedKey(items: seq<Forest>) returns (repeated: bool)
    ensures repeated <==> !KeysDiffer(items, |items|)
  {
    hide Key;
    var keys: set<string> := {};
    for i := 0 to |items|
      invariant forall k :: 0 <= k < i && items[k].Element? ==> Key(items[k]) in keys
      invariant forall key :: key in keys ==> exists k :: 0 <= k < i && items[k].Element? && Key(items[k]) == key
      invariant KeysDiffer(items, i)
    {
      if items[i].Element? {
        if Key(items[i]) in keys {
          return true;
        }
        keys := keys + {Key(items[i])};
      }
    }
    return false;
  }

  lemma {:induction false} InspectedItem(item: Forest)
    ensures Belongs(item) <==> if item.Element? then IsImplementation(item) else IsBlank(item)
    ensures item.Element? ==> (IsIdentified(item) <==> Identity(item).Success?)
    ensures item.Element? && Identity(item).Failure? ==>
              Identity(item).error == if IsSectionOf(item) then SectionWithoutId
                                      else if DirectCount(item.children, "summary") != 1 then SummaryNotUnique
                                      else ToggleWithoutId
  {
    BelongsIfInspected(item);
    if item.Element? {
      forall id
        ensures Identity(item) == Success(id) <==> IdentifiedBy(item, id)
      {
        IdentityIdentifies(item, id);
      }
      if Identity(item).Success? {
        assert IdentifiedBy(item, Identity(item).value);
      }
    }
  }

  lemma {:induction false} KeyIdentifies(item: Forest)
    requires item.Element? && Identity(item).Success?
    ensures IsIdentified(item) && IdentifiedBy(item, Key(item))
  {
    IdentityIdentifies(item, Key(item));
    hide Identity, IdentifiedBy, Key;
  }

  lemma {:induction false} RepeatedKeyFaults(items: seq<Forest>)
    requires forall i :: 0 <= i < |items| ==> Belongs(items[i])
    requires forall i :: 0 <= i < |items| && items[i].Element? ==> Identity(items[i]).Success?
    requires !KeysDiffer(items, |items|)
    ensures Faults(items, RepeatedId)
  {
    hide Belongs, Identity, IsIdentified, IdentifiedBy, Key, LacksId;
    forall i | 0 <= i < |items| && items[i].Element?
      ensures IsIdentified(items[i]) && IdentifiedBy(items[i], Key(items[i]))
    {
      KeyIdentifies(items[i]);
    }
    var i, j :| 0 <= i < j < |items| && items[i].Element? && items[j].Element? && Key(items[i]) == Key(items[j]);
    assert IdentifiedBy(items[i], Key(items[i])) && IdentifiedBy(items[j], Key(items[i]));
  }

  /** The checks on a list, in the order they are made. */
  method Inspect(items: seq<Forest>) returns (error: Option<OrderError>)
    ensures error.None? <==> Orderable(items)
    ensures error.Some? ==> Faults(items, error.value)
  {
    hide Key, Identity, IsImplementation, IsBlank, Orderable, Belongs, IdentifiedBy, IsIdentified, IsSectionOf;
    hide KeysDiffer;
    CheckedIsOrderable(items);
    forall i | 0 <= i < |items|
      ensures Belongs(items[i]) <==> if items[i].Element? then IsImplementation(items[i]) else IsBlank(items[i])
    {
      InspectedItem(items[i]);
    }
    for i := 0 to |items|
      invariant forall j :: 0 <= j < i ==> items[j].Element? || IsBlank(items[j])
    {
      if !items[i].Element? && !IsBlank(items[i]) {
        return Some(StrayText);
      }
    }
    for i := 0 to |items|
      invariant forall j :: 0 <= j < i && items[j].Element? ==> IsImplementation(items[j])
    {
      if items[i].Element? && !IsImplementation(items[i]) {
        return Some(UnknownElement);
      }
    }
    for i := 0 to |items|
      invariant forall j :: 0 <= j < i && items[j].Element? ==> Identity(items[j]).Success? && IsIdentified(items[j])
    {
      InspectedItem(items[i]);
      if items[i].Element? && Identity(items[i]).Failure? {
        assert LacksId(items, i, Identity(items[i]).error);
        return Some(Identity(items[i]).error);
      }
    }
    var repeated := HasRepeatedKey(items);
    if repeated {
      RepeatedKeyFaults(items);
    }
    return if repeated then Some(RepeatedId) else None;
  }

  /** Puts the children of an implementation list into canonical order in place, or leaves them alone. */
  method Canonicalize(children: array<Forest>) returns (error: Option<OrderError>)
    modifies children
    ensures error.None? <==> Orderable(old(children[..]))
    ensures error.Some? ==> Faults(old(children[..]), error.value)
    ensures children[..] == if error.None? then Canonical(old(children[..])) else old(children[..])
  {
    error := Inspect(children[..]);
    if error.None? {
      SortRun(children, DETAILS);
      SortRun(children, SECTION);
    }
  }

  // ---------------------------------------------------------------- documents

  function Joined(items: seq<Forest>): Forest
  {
    if items == [] then Empty else Append(items[0], Joined(items[1..]))
  }

  lemma {:induction false} JoinedWellFormed(items: seq<Forest>)
    ensures WellFormed(Joined(items)) <==> forall item :: item in items ==> WellFormed(item)
  {
    if items == [] {
    } else {
      WellFormedAppend(items[0], Joined(items[1..]));
      JoinedWellFormed(items[1..]);
      assert items == [items[0]] + items[1..];
    }
  }

  /** A reordered list is still one the parser could have built. */
  lemma {:induction false} CanonicalStaysWellFormed(items: seq<Forest>)
    requires Orderable(items)
    ensures WellFormed(Joined(Canonical(items))) <==> WellFormed(Joined(items))
  {
    CanonicalIsOrdered(items);
    hide Canonical, Orderable;
    JoinedWellFormed(items);
    JoinedWellFormed(Canonical(items));
    forall item
      ensures item in items <==> item in Canonical(items)
    {
      assert item in multiset(items) <==> item in multiset(Canonical(items));
    }
  }
}
