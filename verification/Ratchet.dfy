/**
 The exact ratchet of the architecture debt ledger: a new ledger is accepted only if it is the
 old one with some ceilings lowered, or file entries retired, and not a byte changed elsewhere.

 A ledger is its bytes together with what the TOML parser and the section patterns find in
 them: the entries, the section of each, and the ceiling tokens inside each section.
 */
module Ratchet {
  import opened Wrappers
  import opened Sums

  newtype byte = x: int | 0 <= x < 256

  type Bytes = seq<byte>

  datatype Span = Span(start: nat, end: nat)

  datatype Section = Section(span: Span, tokens: seq<Span>)

  /** `metadata` stands for everything else the entry says. */
  datatype Entry = Entry(identity: string, ceiling: nat, metadata: string)

  datatype Table = Table(entries: seq<Entry>, sections: seq<Section>)

  datatype Ledger = Ledger(blob: Bytes, files: Table, surfaces: Table)

  datatype Kind = FileLines | PublicSurface

  /** An old ceiling, and the new one unless the entry is retired. */
  datatype Change = Change(before: nat, after: Option<nat>)

  type Changes = map<string, Change>

  datatype Error =
    | InventoryChanged | TextMismatch | IdentityChanged
    | NoUniqueCeiling(identity: string) | NotCanonical(identity: string)
    | MetadataChanged(identity: string) | NotLower(identity: string)
    | NoRatchet | ChangedOutside

  /** A range of the old bytes and what replaces it. */
  datatype Edit = Edit(span: Span, text: Bytes)

  ghost predicate IsDigit(b: byte)
  {
    48 <= b < 58
  }

  /** The number that digits, read from the left, stand for. */
  ghost function DigitsValue(text: Bytes): nat
    requires forall i :: 0 <= i < |text| ==> IsDigit(text[i])
  {
    if text == [] then 0
    else
      var last := text[|text| - 1];
      assert IsDigit(last);
      10 * DigitsValue(text[..|text| - 1]) + (last as int - 48)
  }

  /** Digits without a leading zero that stand for `n`. */
  ghost predicate IsDecimal(text: Bytes, n: nat)
  {
    && text != []
    && (forall i :: 0 <= i < |text| ==> IsDigit(text[i]))
    && (|text| > 1 ==> text[0] != 48)
    && DigitsValue(text) == n
  }

  function Decimal(n: nat): (text: Bytes)
    ensures IsDecimal(text, n)
  {
    if n < 10 then
      assert DigitsValue([]) == 0;
      [48 + n as byte]
    else
      var front, digit := Decimal(n / 10), 48 + (n % 10) as byte;
      assert (front + [digit])[..|front|] == front;
      assert |front| == 1 ==> front[..0] == [] && DigitsValue([]) == 0;
      front + [digit]
  }

  /** A number has one such text. */
  lemma {:induction false} DecimalIsUnique(text: Bytes, n: nat)
    requires IsDecimal(text, n)
    ensures text == Decimal(n)
  {
    var front := text[..|text| - 1];
    assert text == front + [text[|text| - 1]];
    if front == [] {
      assert DigitsValue(front) == 0;
    } else {
      assert DigitsValue(front[..|front| - 1]) >= 0;
      FrontIsPositive(front);
      DecimalIsUnique(front, n / 10);
    }
  }

  lemma {:induction false} CanonicalText(text: Bytes, n: nat)
    ensures text == Decimal(n) <==> IsDecimal(text, n)
  {
    if IsDecimal(text, n) {
      DecimalIsUnique(text, n);
    }
  }

  lemma {:induction false} FrontIsPositive(text: Bytes)
    requires text != [] && text[0] != 48 && forall i :: 0 <= i < |text| ==> IsDigit(text[i])
    ensures DigitsValue(text) > 0
  {
    if |text| > 1 {
      FrontIsPositive(text[..|text| - 1]);
    } else {
      assert DigitsValue(text[..0]) == 0;
    }
  }

  // ---------------------------------------------------------------- what parsing establishes

  ghost predicate DistinctIdentities(entries: seq<Entry>)
  {
    forall i, j :: 0 <= i < j < |entries| ==> entries[i].identity != entries[j].identity
  }

  predicate Inside(inner: Span, outer: Span)
  {
    outer.start <= inner.start < inner.end <= outer.end
  }

  predicate Before(a: Span, b: Span)
  {
    a.end <= b.start
  }

  ghost predicate Ordered(sections: seq<Section>)
  {
    forall i, j :: 0 <= i < j < |sections| ==> Before(sections[i].span, sections[j].span)
  }

  /** Sections lie in the text, and their ceiling tokens in them. */
  ghost predicate Located(blob: Bytes, sections: seq<Section>)
  {
    forall i :: 0 <= i < |sections| ==>
                  && Inside(sections[i].span, Span(0, |blob|))
                  && forall k :: 0 <= k < |sections[i].tokens| ==> Inside(sections[i].tokens[k], sections[i].span)
  }

  /** Entries are unique and retirable ones count at least one line. */
  ghost predicate Parsed(ledger: Ledger)
  {
    && DistinctIdentities(ledger.files.entries) && DistinctIdentities(ledger.surfaces.entries)
    && (forall i :: 0 <= i < |ledger.files.entries| ==> ledger.files.entries[i].ceiling >= 1)
    && Located(ledger.blob, ledger.files.sections) && Ordered(ledger.files.sections)
    && Located(ledger.blob, ledger.surfaces.sections) && Ordered(ledger.surfaces.sections)
    && forall i, j :: 0 <= i < |ledger.files.sections| && 0 <= j < |ledger.surfaces.sections| ==>
                        || Before(ledger.files.sections[i].span, ledger.surfaces.sections[j].span)
                        || Before(ledger.surfaces.sections[j].span, ledger.files.sections[i].span)
  }

  // ---------------------------------------------------------------- one table

  function Find(entries: seq<Entry>, identity: string): (found: Option<Entry>)
    ensures found.Some? ==> found.value in entries && found.value.identity == identity
    ensures found.None? ==> forall i :: 0 <= i < |entries| ==> entries[i].identity != identity
  {
    if entries == [] then None
    else if entries[|entries| - 1].identity == identity then Some(entries[|entries| - 1])
    else Find(entries[..|entries| - 1], identity)
  }

  function Identities(entries: seq<Entry>): (identities: seq<string>)
    ensures |identities| == |entries|
  {
    seq(|entries|, i requires 0 <= i < |entries| => entries[i].identity)
  }

  /** The entries that the head still has, by identity, in their old order. */
  function RetainedIdentities(entries: seq<Entry>, head: seq<Entry>): seq<string>
  {
    if entries == [] then []
    else
      var last := entries[|entries| - 1];
      RetainedIdentities(entries[..|entries| - 1], head)
      + if Find(head, last.identity).Some? then [last.identity] else []
  }

  function Slice(blob: Bytes, span: Span): Bytes
    requires span.start <= span.end <= |blob|
  {
    blob[span.start..span.end]
  }

  predicate InventoryAccepted(kind: Kind, base: Table, head: Table)
  {
    && |head.entries| <= |base.entries|
    && (kind.FileLines? || |head.entries| == |base.entries|)
    && |base.sections| == |base.entries|
    && Identities(head.entries) == RetainedIdentities(base.entries, head.entries)
  }

  /** The base text of entry `i` is canonical, and the head keeps it, lowers it or drops it. */
  ghost predicate EntryAccepted(blob: Bytes, base: Table, head: Table, i: nat)
    requires Located(blob, base.sections) && i < |base.entries| == |base.sections|
  {
    var entry, tokens := base.entries[i], base.sections[i].tokens;
    var kept := Find(head.entries, entry.identity);
    && |tokens| == 1
    && IsDecimal(Slice(blob, tokens[0]), entry.ceiling)
    && (kept.Some? ==> kept.value.metadata == entry.metadata && kept.value.ceiling <= entry.ceiling)
  }

  ghost predicate TableAccepted(kind: Kind, blob: Bytes, base: Table, head: Table)
    requires Located(blob, base.sections)
  {
    && InventoryAccepted(kind, base, head)
    && forall i :: 0 <= i < |base.entries| ==> EntryAccepted(blob, base, head, i)
  }

  /** What happens to an entry of the base. */
  function ChangeOf(entry: Entry, head: seq<Entry>): Option<Change>
  {
    var kept := Find(head, entry.identity);
    if kept.None? then Some(Change(entry.ceiling, None))
    else if kept.value.ceiling != entry.ceiling then Some(Change(entry.ceiling, Some(kept.value.ceiling)))
    else None
  }

  /**
   What `change` says of an entry: its ceiling, and the one the head gives it instead, or that the
   head has no such entry.
   */
  ghost predicate IsChange(entry: Entry, head: seq<Entry>, change: Change)
  {
    && change.before == entry.ceiling
    && match change.after
       case None => forall j :: 0 <= j < |head| ==> head[j].identity != entry.identity
       case Some(ceiling) =>
         ceiling != entry.ceiling
         && exists j :: 0 <= j < |head| && head[j].identity == entry.identity && head[j].ceiling == ceiling
  }

  /** `changes` has exactly those of the first `n` entries that change, each with its change. */
  ghost predicate ReportsUpTo(base: seq<Entry>, head: seq<Entry>, changes: Changes, n: nat)
    requires n <= |base|
  {
    && (forall identity :: identity in changes ==> exists i :: 0 <= i < n && base[i].identity == identity)
    && forall i :: 0 <= i < n ==>
                     if base[i].identity in changes then IsChange(base[i], head, changes[base[i].identity])
                     else forall change :: !IsChange(base[i], head, change)
  }

  ghost predicate ReportsChanges(base: seq<Entry>, head: seq<Entry>, changes: Changes)
  {
    ReportsUpTo(base, head, changes, |base|)
  }

  lemma {:induction false} ChangeOfIsChange(entry: Entry, head: seq<Entry>)
    requires DistinctIdentities(head)
    ensures if ChangeOf(entry, head).Some? then IsChange(entry, head, ChangeOf(entry, head).value)
            else forall change :: !IsChange(entry, head, change)
    ensures forall change :: IsChange(entry, head, change) ==> ChangeOf(entry, head) == Some(change)
  {
    var kept := Find(head, entry.identity);
    if kept.Some? {
      assert exists j :: 0 <= j < |head| && head[j] == kept.value;
    }
  }

  /** How a change rewrites its section. */
  function EditOf(section: Section, change: Change): Edit
    requires |section.tokens| == 1
  {
    if change.after.None? then Edit(section.span, []) else Edit(section.tokens[0], Decimal(change.after.value))
  }

  /** The changes of the first `n` entries. */
  function ChangesUpTo(base: seq<Entry>, head: seq<Entry>, n: nat): Changes
    requires n <= |base|
  {
    if n == 0 then map[]
    else
      var before, change := ChangesUpTo(base, head, n - 1), ChangeOf(base[n - 1], head);
      if change.None? then before else before[base[n - 1].identity := change.value]
  }

  /** The first `n` sections have one ceiling token each. */
  ghost predicate OneToken(sections: seq<Section>, n: nat)
  {
    n <= |sections| && forall i :: 0 <= i < n ==> |sections[i].tokens| == 1
  }

  /** The edits that changes ask of the first `n` sections, in section order. */
  function EditsUpTo(base: Table, changes: Changes, n: nat): seq<Edit>
    requires n <= |base.entries| && OneToken(base.sections, n)
  {
    if n == 0 then []
    else
      var before, identity := EditsUpTo(base, changes, n - 1), base.entries[n - 1].identity;
      if identity in changes then before + [EditOf(base.sections[n - 1], changes[identity])] else before
  }

  lemma {:induction false} ChangesNames(base: seq<Entry>, head: seq<Entry>, n: nat)
    requires n <= |base|
    ensures forall identity :: identity in ChangesUpTo(base, head, n) ==>
                                 exists i :: 0 <= i < n && base[i].identity == identity
  {
    if n == 0 {
    } else {
      ChangesNames(base, head, n - 1);
      var changes := ChangesUpTo(base, head, n);
      forall identity | identity in changes
        ensures exists i :: 0 <= i < n && base[i].identity == identity
      {
        assert identity in ChangesUpTo(base, head, n - 1) || identity == base[n - 1].identity;
      }
    }
  }

  /** Later changes do not touch the edits of earlier sections. */
  lemma {:induction false} EditsStable(base: Table, changes: Changes, identity: string, change: Change, n: nat)
    requires n <= |base.entries| && OneToken(base.sections, n)
    requires forall i :: 0 <= i < n ==> base.entries[i].identity != identity
    ensures EditsUpTo(base, changes[identity := change], n) == EditsUpTo(base, changes, n)
  {
    if n == 0 {
    } else {
      EditsStable(base, changes, identity, change, n - 1);
    }
  }

  /** One more entry, with a name of its own, is reported beside the others. */
  lemma {:induction false} ReportsNext(base: seq<Entry>, head: seq<Entry>, changes: Changes, n: nat)
    requires n < |base| && DistinctIdentities(base) && DistinctIdentities(head)
    requires ReportsUpTo(base, head, changes, n)
    ensures var change := ChangeOf(base[n], head);
            ReportsUpTo(base, head,
                        if change.None? then changes else changes[base[n].identity := change.value], n + 1)
  {
    ChangeOfIsChange(base[n], head);
    hide IsChange, ChangeOf;
    var change := ChangeOf(base[n], head);
    var changes' := if change.None? then changes else changes[base[n].identity := change.value];
    assert base[n].identity !in changes;
    forall i | 0 <= i < n + 1
      ensures if base[i].identity in changes' then IsChange(base[i], head, changes'[base[i].identity])
              else forall change :: !IsChange(base[i], head, change)
    {
      assert i < n ==> base[i].identity != base[n].identity;
    }
  }

  lemma {:induction false} ChangesAreReported(base: seq<Entry>, head: seq<Entry>, n: nat)
    requires n <= |base| && DistinctIdentities(base) && DistinctIdentities(head)
    ensures ReportsUpTo(base, head, ChangesUpTo(base, head, n), n)
  {
    if n == 0 {
    } else {
      ChangesAreReported(base, head, n - 1);
      ReportsNext(base, head, ChangesUpTo(base, head, n - 1), n - 1);
      hide ReportsUpTo, ChangeOf, DistinctIdentities;
    }
  }

  lemma {:induction false} NoEntries(base: Table, head: Table)
    ensures ChangesUpTo(base.entries, head.entries, 0) == map[]
    ensures OneToken(base.sections, 0) && EditsUpTo(base, map[], 0) == []
  {
  }

  /** What comparing one more entry adds to the changes and the edits. */
  lemma {:induction false} NextEntry(base: Table, head: Table, i: nat)
    requires i < |base.entries| && OneToken(base.sections, i + 1) && DistinctIdentities(base.entries)
    ensures var changes, change := ChangesUpTo(base.entries, head.entries, i), ChangeOf(base.entries[i], head.entries);
            var changes' := ChangesUpTo(base.entries, head.entries, i + 1);
            && changes' == (if change.None? then changes else changes[base.entries[i].identity := change.value])
            && EditsUpTo(base, changes', i + 1)
            == EditsUpTo(base, changes, i) + if change.None? then [] else [EditOf(base.sections[i], change.value)]
  {
    var changes, change := ChangesUpTo(base.entries, head.entries, i), ChangeOf(base.entries[i], head.entries);
    ChangesNames(base.entries, head.entries, i);
    if change.Some? {
      EditsStable(base, changes, base.entries[i].identity, change.value, i);
    }
  }

  /** Compares one table of the two ledgers and collects the edits and changes. */
  method RatchetTable(kind: Kind, blob: Bytes, base: Table, head: Table)
    returns (result: Result<(seq<Edit>, Changes), Error>)
    requires Located(blob, base.sections) && DistinctIdentities(base.entries)
    ensures result.Success? <==> TableAccepted(kind, blob, base, head)
    ensures result.Success? ==> result.value.1 == ChangesUpTo(base.entries, head.entries, |base.entries|)
    ensures result.Success? ==> OneToken(base.sections, |base.entries|)
    ensures result.Success? ==> result.value.0 == EditsUpTo(base, result.value.1, |base.entries|)
  {
    if |base.entries| < |head.entries| || (kind != FileLines && |base.entries| != |head.entries|) {
      return Failure(InventoryChanged);
    }
    if |base.sections| != |base.entries| {
      return Failure(TextMismatch);
    }
    if Identities(head.entries) != RetainedIdentities(base.entries, head.entries) {
      return Failure(IdentityChanged);
    }
    hide Decimal, IsDecimal, Find, Slice, Located, ChangesUpTo, EditsUpTo, EditOf, ChangeOf;
    NoEntries(base, head);
    var edits: seq<Edit>, changes: Changes := [], map[];
    for i := 0 to |base.entries|
      invariant forall k :: 0 <= k < i ==> EntryAccepted(blob, base, head, k)
      invariant changes == ChangesUpTo(base.entries, head.entries, i)
      invariant OneToken(base.sections, i) && edits == EditsUpTo(base, changes, i)
    {
      assert TableAccepted(kind, blob, base, head) ==> EntryAccepted(blob, base, head, i);
      var entry, section := base.entries[i], base.sections[i];
      if |section.tokens| != 1 {
        return Failure(NoUniqueCeiling(entry.identity));
      }
      CanonicalText(Slice(blob, section.tokens[0]), entry.ceiling);
      if Slice(blob, section.tokens[0]) != Decimal(entry.ceiling) {
        return Failure(NotCanonical(entry.identity));
      }
      var kept := Find(head.entries, entry.identity);
      if kept.Some? && kept.value.metadata != entry.metadata {
        return Failure(MetadataChanged(entry.identity));
      }
      if kept.Some? && kept.value.ceiling > entry.ceiling {
        return Failure(NotLower(entry.identity));
      }
      var change := ChangeOf(entry, head.entries);
      NextEntry(base, head, i);
      if change.Some? {
        changes := changes[entry.identity := change.value];
        edits := edits + [EditOf(section, change.value)];
      }
    }
    return Success((edits, changes));
  }

  // ---------------------------------------------------------------- splicing

  /** Nonempty ranges of the text, no two overlapping. */
  ghost predicate Separate(blob: Bytes, edits: seq<Edit>)
  {
    && (forall i :: 0 <= i < |edits| ==> Inside(edits[i].span, Span(0, |blob|)))
    && forall i, j :: 0 <= i < j < |edits| ==>
                        Before(edits[i].span, edits[j].span) || Before(edits[j].span, edits[i].span)
  }

  ghost predicate InOrder(edits: seq<Edit>)
  {
    forall i, j :: 0 <= i < j < |edits| ==> Before(edits[i].span, edits[j].span)
  }

  function InsertEdit(sorted: seq<Edit>, edit: Edit): (r: seq<Edit>)
    ensures forall e :: e in r <==> e == edit || e in sorted
  {
    if sorted == [] || edit.span.start < sorted[0].span.start then [edit] + sorted
    else
      assert forall e :: e in sorted <==> e == sorted[0] || e in sorted[1..];
      [sorted[0]] + InsertEdit(sorted[1..], edit)
  }

  lemma {:induction false} InsertKeepsOrder(sorted: seq<Edit>, edit: Edit)
    requires InOrder(sorted) && edit.span.start < edit.span.end
    requires forall e :: e in sorted ==>
              e.span.start < e.span.end && (Before(e.span, edit.span) || Before(edit.span, e.span))
    ensures InOrder(InsertEdit(sorted, edit))
  {
    if sorted == [] {
    } else {
      assert sorted[0] in sorted;
      if edit.span.start < sorted[0].span.start {
        forall j | 0 <= j < |sorted|
          ensures Before(edit.span, sorted[j].span)
        {
          assert j > 0 ==> Before(sorted[0].span, sorted[j].span);
        }
      } else {
        InsertKeepsOrder(sorted[1..], edit);
        var rest := InsertEdit(sorted[1..], edit);
        forall j | 0 <= j < |rest|
          ensures Before(sorted[0].span, rest[j].span)
        {
          assert rest[j] in rest;
          if rest[j] != edit {
            var k :| 0 <= k < |sorted[1..]| && sorted[1..][k] == rest[j];
            assert Before(sorted[0].span, sorted[k + 1].span);
          }
        }
      }
    }
  }

  /** The edits by position in the old text. */
  function SortEdits(edits: seq<Edit>): (sorted: seq<Edit>)
    ensures forall e :: e in sorted <==> e in edits
  {
    if edits == [] then []
    else
      assert forall e :: e in edits <==> e == edits[|edits| - 1] || e in edits[..|edits| - 1];
      InsertEdit(SortEdits(edits[..|edits| - 1]), edits[|edits| - 1])
  }

  lemma {:induction false} SortedInOrder(blob: Bytes, edits: seq<Edit>)
    requires Separate(blob, edits)
    ensures InOrder(SortEdits(edits))
  {
    if edits == [] {
    } else {
      var init, last := edits[..|edits| - 1], edits[|edits| - 1];
      SortedInOrder(blob, init);
      forall e | e in SortEdits(init)
        ensures e.span.start < e.span.end && (Before(e.span, last.span) || Before(last.span, e.span))
      {
        var i :| 0 <= i < |init| && init[i] == e;
        assert edits[i] == e;
      }
      InsertKeepsOrder(SortEdits(init), last);
    }
  }

  /** What is still to come of the new text once the old text is copied up to `cursor`. */
  ghost predicate Spliceable(blob: Bytes, sorted: seq<Edit>, cursor: nat)
  {
    && cursor <= |blob|
    && InOrder(sorted)
    && forall i :: 0 <= i < |sorted| ==> cursor <= sorted[i].span.start < sorted[i].span.end <= |blob|
  }

  ghost function Spliced(blob: Bytes, sorted: seq<Edit>, cursor: nat): Bytes
    requires Spliceable(blob, sorted, cursor)
  {
    if sorted == [] then blob[cursor..]
    else
      var span := sorted[0].span;
      assert forall i :: 1 <= i < |sorted| ==> Before(span, sorted[i].span);
      blob[cursor..span.start] + sorted[0].text + Spliced(blob, sorted[1..], span.end)
  }

  lemma {:induction false} SortedSpliceable(blob: Bytes, edits: seq<Edit>)
    requires Separate(blob, edits)
    ensures Spliceable(blob, SortEdits(edits), 0)
  {
    SortedInOrder(blob, edits);
    var sorted := SortEdits(edits);
    forall i | 0 <= i < |sorted|
      ensures sorted[i].span.start < sorted[i].span.end <= |blob|
    {
      assert sorted[i] in sorted;
      var k :| 0 <= k < |edits| && edits[k] == sorted[i];
    }
  }

  /** Copies the old text around the edits. */
  method Splice(blob: Bytes, edits: seq<Edit>) returns (text: Bytes)
    requires Separate(blob, edits)
    ensures Spliceable(blob, SortEdits(edits), 0) && text == Spliced(blob, SortEdits(edits), 0)
  {
    SortedSpliceable(blob, edits);
    var sorted := SortEdits(edits);
    text := [];
    var cursor: nat := 0;
    hide Spliceable, Separate, InOrder;
    for i := 0 to |sorted|
      invariant Spliceable(blob, sorted[i..], cursor)
      invariant Spliced(blob, sorted, 0) == text + Spliced(blob, sorted[i..], cursor)
    {
      var edit := sorted[i];
      ghost var copied, from := text, cursor;
      SplicedNext(blob, sorted[i..], cursor);
      assert sorted[i..][1..] == sorted[i + 1..];
      text := text + blob[cursor..edit.span.start];
      text := text + edit.text;
      cursor := edit.span.end;
      assert copied + Spliced(blob, sorted[i..], from) == text + Spliced(blob, sorted[i + 1..], cursor);
    }
    SplicedEnd(blob, cursor);
    text := text + blob[cursor..];
  }

  lemma {:induction false} SplicedNext(blob: Bytes, sorted: seq<Edit>, cursor: nat)
    requires Spliceable(blob, sorted, cursor) && sorted != []
    ensures var span := sorted[0].span;
            && cursor <= span.start <= span.end <= |blob|
            && Spliceable(blob, sorted[1..], span.end)
            && Spliced(blob, sorted, cursor)
            == blob[cursor..span.start] + sorted[0].text + Spliced(blob, sorted[1..], span.end)
  {
    assert forall i :: 1 <= i < |sorted| ==> Before(sorted[0].span, sorted[i].span);
  }

  lemma {:induction false} SplicedEnd(blob: Bytes, cursor: nat)
    requires Spliceable(blob, [], cursor)
    ensures cursor <= |blob| && Spliced(blob, [], cursor) == blob[cursor..]
  {
  }

  // ---------------------------------------------------------------- all edits at once

  ghost predicate StartsAt(edits: set<Edit>, p: nat)
  {
    exists e :: e in edits && e.span.start == p
  }

  ghost predicate CoveredAt(edits: set<Edit>, p: nat)
  {
    exists e :: e in edits && e.span.start <= p < e.span.end
  }

  /** What position `p` of the old text contributes: an edit that starts there, and its own byte unless replaced. */
  ghost function Emit(blob: Bytes, edits: set<Edit>, p: nat): Bytes
    requires p < |blob|
  {
    (if StartsAt(edits, p) then (var e :| e in edits && e.span.start == p; e.text) else [])
    + (if CoveredAt(edits, p) then [] else [blob[p]])
  }

  /** Simultaneous replacement from position `p` on: no order among the edits. */
  ghost function Replaced(blob: Bytes, edits: set<Edit>, p: nat): Bytes
    requires p <= |blob|
    decreases |blob| - p
  {
    if p == |blob| then [] else Emit(blob, edits, p) + Replaced(blob, edits, p + 1)
  }

  ghost predicate SeparateSet(blob: Bytes, edits: set<Edit>)
  {
    && (forall e :: e in edits ==> Inside(e.span, Span(0, |blob|)))
    && forall e, f :: e in edits && f in edits && e != f ==> Before(e.span, f.span) || Before(f.span, e.span)
  }

  lemma {:induction false} EmitOutside(blob: Bytes, edits: set<Edit>, p: nat)
    requires SeparateSet(blob, edits) && p < |blob| && !CoveredAt(edits, p)
    ensures Emit(blob, edits, p) == [blob[p]]
  {
    assert !StartsAt(edits, p);
  }

  lemma {:induction false} ReplacedGap(blob: Bytes, edits: set<Edit>, p: nat, q: nat)
    requires SeparateSet(blob, edits) && p <= q <= |blob|
    requires forall r :: p <= r < q ==> !CoveredAt(edits, r)
    ensures Replaced(blob, edits, p) == blob[p..q] + Replaced(blob, edits, q)
    decreases q - p
  {
    hide Emit, SeparateSet, CoveredAt;
    if p < q {
      ReplacedGap(blob, edits, p + 1, q);
      EmitOutside(blob, edits, p);
      var first, gap, rest := [blob[p]], blob[p + 1..q], Replaced(blob, edits, q);
      assert Replaced(blob, edits, p) == first + (gap + rest) == (first + gap) + rest;
      assert blob[p..q] == first + gap;
    }
  }

  lemma {:induction false} EmitInside(blob: Bytes, edits: set<Edit>, e: Edit, p: nat)
    requires SeparateSet(blob, edits) && e in edits && e.span.start <= p < e.span.end
    ensures p < |blob| && Emit(blob, edits, p) == if p == e.span.start then e.text else []
  {
    assert CoveredAt(edits, p);
    forall f | f in edits && f.span.start == p
      ensures f == e
    {
      assert f != e ==> Before(e.span, f.span) || Before(f.span, e.span);
    }
    if p == e.span.start {
      assert StartsAt(edits, p);
    } else {
      assert !StartsAt(edits, p);
    }
  }

  lemma {:induction false} ReplacedInside(blob: Bytes, edits: set<Edit>, e: Edit, p: nat)
    requires SeparateSet(blob, edits) && e in edits && e.span.start < p <= e.span.end <= |blob|
    ensures Replaced(blob, edits, p) == Replaced(blob, edits, e.span.end)
    decreases e.span.end - p
  {
    hide SeparateSet, Emit;
    if p < e.span.end {
      ReplacedInside(blob, edits, e, p + 1);
      EmitInside(blob, edits, e, p);
    }
  }

  lemma {:induction false} ReplacedEdit(blob: Bytes, edits: set<Edit>, e: Edit)
    requires SeparateSet(blob, edits) && e in edits
    ensures e.span.start < e.span.end <= |blob|
    ensures Replaced(blob, edits, e.span.start) == e.text + Replaced(blob, edits, e.span.end)
  {
    assert Inside(e.span, Span(0, |blob|));
    hide SeparateSet, Emit;
    EmitInside(blob, edits, e, e.span.start);
    ReplacedInside(blob, edits, e, e.span.start + 1);
  }

  /** `sorted` holds the edits that are not behind the cursor. */
  ghost predicate Ahead(edits: set<Edit>, sorted: seq<Edit>, cursor: nat)
  {
    && (forall i :: 0 <= i < |sorted| ==> sorted[i] in edits)
    && forall e :: e in edits ==> e in sorted || e.span.end <= cursor
  }

  lemma {:induction false} RestSpliceable(blob: Bytes, sorted: seq<Edit>, cursor: nat)
    requires Spliceable(blob, sorted, cursor) && sorted != []
    ensures Spliceable(blob, sorted[1..], sorted[0].span.end)
  {
    var e, rest := sorted[0], sorted[1..];
    assert forall i :: 0 <= i < |rest| ==> rest[i] == sorted[i + 1] && Before(e.span, sorted[i + 1].span);
  }

  lemma {:induction false} RestAhead(blob: Bytes, edits: set<Edit>, sorted: seq<Edit>, cursor: nat)
    requires Spliceable(blob, sorted, cursor) && sorted != [] && Ahead(edits, sorted, cursor)
    ensures Spliceable(blob, sorted[1..], sorted[0].span.end) && Ahead(edits, sorted[1..], sorted[0].span.end)
  {
    var e, rest := sorted[0], sorted[1..];
    RestSpliceable(blob, sorted, cursor);
    assert cursor <= e.span.end;
    hide Spliceable;
    assert forall f :: f in sorted <==> f == e || f in rest;
  }

  /** Splicing edits in text order is replacing them all at once. */
  lemma {:induction false} SplicedIsReplaced(blob: Bytes, edits: set<Edit>, sorted: seq<Edit>, cursor: nat)
    requires SeparateSet(blob, edits) && Spliceable(blob, sorted, cursor) && Ahead(edits, sorted, cursor)
    ensures Spliced(blob, sorted, cursor) == Replaced(blob, edits, cursor)
  {
    if sorted == [] {
      ReplacedGap(blob, edits, cursor, |blob|);
    } else {
      RestAhead(blob, edits, sorted, cursor);
      GapBeforeFirst(blob, edits, sorted, cursor);
      ReplacedEdit(blob, edits, sorted[0]);
      SplicedIsReplaced(blob, edits, sorted[1..], sorted[0].span.end);
      hide Replaced, SeparateSet, Ahead, InOrder;
    }
  }

  lemma {:induction false} GapBeforeFirst(blob: Bytes, edits: set<Edit>, sorted: seq<Edit>, cursor: nat)
    requires SeparateSet(blob, edits) && Spliceable(blob, sorted, cursor) && sorted != []
    requires Ahead(edits, sorted, cursor)
    ensures Replaced(blob, edits, cursor)
         == blob[cursor..sorted[0].span.start] + Replaced(blob, edits, sorted[0].span.start)
  {
    var start := sorted[0].span.start;
    forall f | f in edits
      ensures f.span.end <= cursor || start <= f.span.start
    {
      if f in sorted {
        var k :| 0 <= k < |sorted| && sorted[k] == f;
        assert k > 0 ==> Before(sorted[0].span, sorted[k].span);
      }
    }
    ReplacedGap(blob, edits, cursor, start);
  }

  // ---------------------------------------------------------------- the whole ledger

  ghost predicate Within(edit: Edit, sections: seq<Section>, n: nat)
    requires n <= |sections|
  {
    exists i :: 0 <= i < n && Inside(edit.span, sections[i].span)
  }

  lemma {:induction false} EditsWithin(blob: Bytes, base: Table, changes: Changes, n: nat)
    requires Located(blob, base.sections) && Ordered(base.sections)
    requires n <= |base.entries| && OneToken(base.sections, n)
    ensures InOrder(EditsUpTo(base, changes, n))
    ensures forall k :: 0 <= k < |EditsUpTo(base, changes, n)| ==>
              Within(EditsUpTo(base, changes, n)[k], base.sections, n)
  {
    if n == 0 {
    } else {
      EditsWithin(blob, base, changes, n - 1);
      var before, edits := EditsUpTo(base, changes, n - 1), EditsUpTo(base, changes, n);
      forall k | 0 <= k < |edits|
        ensures Within(edits[k], base.sections, n)
        ensures k < |before| && |edits| > |before| ==> Before(edits[k].span, edits[|before|].span)
      {
        if |edits| > |before| {
          assert Inside(edits[|before|].span, base.sections[n - 1].span);
        }
        if k < |before| {
          assert Within(before[k], base.sections, n - 1);
          var i :| 0 <= i < n - 1 && Inside(before[k].span, base.sections[i].span);
          assert Before(base.sections[i].span, base.sections[n - 1].span);
        }
      }
    }
  }

  ghost function ChangesIn(base: Table, head: Table): Changes
  {
    ChangesUpTo(base.entries, head.entries, |base.entries|)
  }

  /** The edits of both tables. */
  ghost function AllEdits(base: Ledger, head: Ledger): seq<Edit>
    requires OneToken(base.files.sections, |base.files.entries|)
    requires OneToken(base.surfaces.sections, |base.surfaces.entries|)
  {
    EditsUpTo(base.files, ChangesIn(base.files, head.files), |base.files.entries|)
    + EditsUpTo(base.surfaces, ChangesIn(base.surfaces, head.surfaces), |base.surfaces.entries|)
  }

  lemma {:induction false} EditsSeparate(base: Ledger, head: Ledger)
    requires Parsed(base)
    requires OneToken(base.files.sections, |base.files.entries|)
    requires OneToken(base.surfaces.sections, |base.surfaces.entries|)
    ensures Separate(base.blob, AllEdits(base, head))
  {
    var files, surfaces := ChangesIn(base.files, head.files), ChangesIn(base.surfaces, head.surfaces);
    EditsWithin(base.blob, base.files, files, |base.files.entries|);
    EditsWithin(base.blob, base.surfaces, surfaces, |base.surfaces.entries|);
    var a := EditsUpTo(base.files, files, |base.files.entries|);
    var b := EditsUpTo(base.surfaces, surfaces, |base.surfaces.entries|);
    forall i, j | 0 <= i < |a| && 0 <= j < |b|
      ensures Before(a[i].span, b[j].span) || Before(b[j].span, a[i].span)
    {
      assert Within(a[i], base.files.sections, |base.files.entries|);
      assert Within(b[j], base.surfaces.sections, |base.surfaces.entries|);
      var k :| 0 <= k < |base.files.entries| && Inside(a[i].span, base.files.sections[k].span);
      var l :| 0 <= l < |base.surfaces.entries| && Inside(b[j].span, base.surfaces.sections[l].span);
    }
    assert forall i :: 0 <= i < |a| ==> Within(a[i], base.files.sections, |base.files.entries|);
    assert forall j :: 0 <= j < |b| ==> Within(b[j], base.surfaces.sections, |base.surfaces.entries|);
  }

  ghost function AsSet(edits: seq<Edit>): set<Edit>
  {
    set e | e in edits
  }

  /** The old bytes with all changes applied at once. */
  ghost function Rewritten(base: Ledger, head: Ledger): Bytes
    requires OneToken(base.files.sections, |base.files.entries|)
    requires OneToken(base.surfaces.sections, |base.surfaces.entries|)
  {
    Replaced(base.blob, AsSet(AllEdits(base, head)), 0)
  }

  // ---------------------------------------------------------------- the new text, byte by byte

  /** Position `p` is in the section of entry `i`, which the head does not have. */
  ghost predicate Retires(base: Table, head: Table, i: nat, p: nat)
  {
    && i < |base.entries| && i < |base.sections|
    && (forall j :: 0 <= j < |head.entries| ==> head.entries[j].identity != base.entries[i].identity)
    && base.sections[i].span.start <= p < base.sections[i].span.end
  }

  /** Position `p` is in the ceiling token of entry `i`, which the head has with another ceiling. */
  ghost predicate Lowers(base: Table, head: Table, i: nat, ceiling: nat, p: nat)
  {
    && i < |base.entries| && i < |base.sections| && |base.sections[i].tokens| == 1
    && IsChange(base.entries[i], head.entries, Change(base.entries[i].ceiling, Some(ceiling)))
    && base.sections[i].tokens[0].start <= p < base.sections[i].tokens[0].end
  }

  ghost predicate Touches(base: Table, head: Table, p: nat)
  {
    (exists i: nat :: Retires(base, head, i, p)) || (exists i: nat, ceiling: nat :: Lowers(base, head, i, ceiling, p))
  }

  /** What takes the place of a touched position: a new ceiling at the start of its token, and else nothing. */
  ghost predicate TakesPlace(base: Table, head: Table, p: nat, piece: Bytes)
  {
    if exists i: nat :: Retires(base, head, i, p) then piece == []
    else exists i: nat, ceiling: nat :: && Lowers(base, head, i, ceiling, p)
                              && (if p == base.sections[i].tokens[0].start then IsDecimal(piece, ceiling)
                                  else piece == [])
  }

  /** What the new text has for position `p` of the old one. */
  ghost predicate IsPiece(base: Ledger, head: Ledger, p: nat, piece: Bytes)
    requires p < |base.blob|
  {
    if Touches(base.files, head.files, p) then TakesPlace(base.files, head.files, p, piece)
    else if Touches(base.surfaces, head.surfaces, p) then TakesPlace(base.surfaces, head.surfaces, p, piece)
    else piece == [base.blob[p]]
  }

  ghost function Joined(pieces: seq<Bytes>): Bytes
  {
    if pieces == [] then [] else pieces[0] + Joined(pieces[1..])
  }

  /** The head's text consists of a piece for each position of the base's. */
  ghost predicate RewritesText(base: Ledger, head: Ledger)
  {
    exists pieces: seq<Bytes> ::
      && |pieces| == |base.blob|
      && (forall p :: 0 <= p < |base.blob| ==> IsPiece(base, head, p, pieces[p]))
      && head.blob == Joined(pieces)
  }

  /** The edits of a table are those of its changes. */
  lemma {:induction false} EditsMean(base: Table, head: Table, n: nat, e: Edit)
    requires n <= |base.entries| && OneToken(base.sections, n)
    requires DistinctIdentities(base.entries) && DistinctIdentities(head.entries)
    ensures e in EditsUpTo(base, ChangesUpTo(base.entries, head.entries, n), n) <==>
            exists i, change :: 0 <= i < n && IsChange(base.entries[i], head.entries, change)
                                && e == EditOf(base.sections[i], change)
  {
    if n == 0 {
    } else {
      EditsMean(base, head, n - 1, e);
      NextEntry(base, head, n - 1);
      ChangeOfIsChange(base.entries[n - 1], head.entries);
      hide IsChange, ChangeOf, EditOf, EditsUpTo, ChangesUpTo;
    }
  }

  ghost predicate Covers(e: Edit, p: nat)
  {
    e.span.start <= p < e.span.end
  }

  ghost function TableEdits(base: Table, head: Table): seq<Edit>
    requires OneToken(base.sections, |base.entries|)
  {
    EditsUpTo(base, ChangesIn(base, head), |base.entries|)
  }

  lemma {:induction false} TouchedIsCovered(base: Table, head: Table, p: nat)
    requires OneToken(base.sections, |base.entries|)
    requires DistinctIdentities(base.entries) && DistinctIdentities(head.entries)
    ensures forall i: nat :: Retires(base, head, i, p) ==> Edit(base.sections[i].span, []) in TableEdits(base, head)
    ensures forall i: nat, ceiling: nat :: Lowers(base, head, i, ceiling, p) ==>
                                   Edit(base.sections[i].tokens[0], Decimal(ceiling)) in TableEdits(base, head)
    ensures forall e :: e in TableEdits(base, head) && Covers(e, p) ==> Touches(base, head, p)
  {
    hide Decimal, EditsUpTo, ChangesUpTo;
    forall i: nat | Retires(base, head, i, p)
      ensures Edit(base.sections[i].span, []) in TableEdits(base, head)
    {
      var change := Change(base.entries[i].ceiling, None);
      assert IsChange(base.entries[i], head.entries, change);
      EditsMean(base, head, |base.entries|, EditOf(base.sections[i], change));
    }
    forall i: nat, ceiling: nat | Lowers(base, head, i, ceiling, p)
      ensures Edit(base.sections[i].tokens[0], Decimal(ceiling)) in TableEdits(base, head)
    {
      var change := Change(base.entries[i].ceiling, Some(ceiling));
      EditsMean(base, head, |base.entries|, EditOf(base.sections[i], change));
    }
    forall e | e in TableEdits(base, head) && Covers(e, p)
      ensures Touches(base, head, p)
    {
      EditsMean(base, head, |base.entries|, e);
      var i, change :| 0 <= i < |base.entries| && IsChange(base.entries[i], head.entries, change)
                       && e == EditOf(base.sections[i], change);
      if change.after.None? {
        assert Retires(base, head, i, p);
      } else {
        assert change == Change(base.entries[i].ceiling, Some(change.after.value));
        assert Lowers(base, head, i, change.after.value, p);
      }
    }
  }

  /** What takes the place of a touched position is what the edits emit there. */
  lemma {:induction false} PlaceIsEmitted(
    blob: Bytes, base: Table, head: Table, edits: set<Edit>, p: nat, piece: Bytes)
    requires OneToken(base.sections, |base.entries|) && SeparateSet(blob, edits) && p < |blob|
    requires DistinctIdentities(base.entries) && DistinctIdentities(head.entries)
    requires forall e :: e in TableEdits(base, head) ==> e in edits
    requires Touches(base, head, p)
    ensures TakesPlace(base, head, p, piece) <==> piece == Emit(blob, edits, p)
  {
    TouchedIsCovered(base, head, p);
    hide Emit, SeparateSet, Touches, TableEdits, Decimal, IsChange;
    if i: nat :| Retires(base, head, i, p) {
      EmitInside(blob, edits, Edit(base.sections[i].span, []), p);
    } else {
      assert exists i: nat, ceiling: nat :: Lowers(base, head, i, ceiling, p) by {
        TouchesLowers(base, head, p);
      }
      forall i: nat, ceiling: nat | Lowers(base, head, i, ceiling, p)
        ensures Emit(blob, edits, p) == if p == base.sections[i].tokens[0].start then Decimal(ceiling) else []
      {
        EmitInside(blob, edits, Edit(base.sections[i].tokens[0], Decimal(ceiling)), p);
      }
      forall ceiling
        ensures piece == Decimal(ceiling) <==> IsDecimal(piece, ceiling)
      {
        CanonicalText(piece, ceiling);
      }
    }
  }

  lemma {:induction false} TouchesLowers(base: Table, head: Table, p: nat)
    requires Touches(base, head, p) && forall i: nat :: !Retires(base, head, i, p)
    ensures exists i: nat, ceiling: nat :: Lowers(base, head, i, ceiling, p)
  {
  }

  lemma {:induction false} PieceIsEmitted(base: Ledger, head: Ledger, p: nat, piece: Bytes)
    requires Parsed(base) && Parsed(head) && p < |base.blob|
    requires OneToken(base.files.sections, |base.files.entries|)
    requires OneToken(base.surfaces.sections, |base.surfaces.entries|)
    ensures IsPiece(base, head, p, piece) <==> piece == Emit(base.blob, AsSet(AllEdits(base, head)), p)
  {
    var edits := AsSet(AllEdits(base, head));
    EditsSeparate(base, head);
    SeparateAsSet(base.blob, AllEdits(base, head));
    TouchedIsCovered(base.files, head.files, p);
    TouchedIsCovered(base.surfaces, head.surfaces, p);
    assert forall e :: e in edits <==> e in TableEdits(base.files, head.files)
                                       || e in TableEdits(base.surfaces, head.surfaces);
    hide Emit, SeparateSet, Touches, TakesPlace, TableEdits, Separate, Located, Ordered, AllEdits, Decimal;
    if Touches(base.files, head.files, p) {
      PlaceIsEmitted(base.blob, base.files, head.files, edits, p, piece);
    } else if Touches(base.surfaces, head.surfaces, p) {
      PlaceIsEmitted(base.blob, base.surfaces, head.surfaces, edits, p, piece);
    } else {
      assert !CoveredAt(edits, p) by {
        forall e | e in edits
          ensures !(e.span.start <= p < e.span.end)
        {
          assert !Covers(e, p);
        }
      }
      EmitOutside(base.blob, edits, p);
    }
  }

  lemma {:induction false} PiecesJoin(blob: Bytes, edits: set<Edit>, pieces: seq<Bytes>, p: nat)
    requires p <= |blob| == |pieces| && forall q :: 0 <= q < |blob| ==> pieces[q] == Emit(blob, edits, q)
    ensures Joined(pieces[p..]) == Replaced(blob, edits, p)
    decreases |blob| - p
  {
    hide Emit;
    if p < |blob| {
      PiecesJoin(blob, edits, pieces, p + 1);
      assert pieces[p..][1..] == pieces[p + 1..];
    }
  }

  /** The rewritten text is the one that consists of the right pieces. */
  lemma {:induction false} RewrittenIsPieces(base: Ledger, head: Ledger)
    requires Parsed(base) && Parsed(head)
    requires OneToken(base.files.sections, |base.files.entries|)
    requires OneToken(base.surfaces.sections, |base.surfaces.entries|)
    ensures RewritesText(base, head) <==> head.blob == Rewritten(base, head)
  {
    var blob, edits := base.blob, AsSet(AllEdits(base, head));
    forall p, piece | 0 <= p < |blob|
      ensures IsPiece(base, head, p, piece) <==> piece == Emit(blob, edits, p)
    {
      PieceIsEmitted(base, head, p, piece);
    }
    var emitted := seq(|blob|, p requires 0 <= p < |blob| => Emit(blob, edits, p));
    hide Emit, IsPiece, AllEdits, Parsed;
    PiecesJoin(blob, edits, emitted, 0);
    assert emitted[0..] == emitted;
    if RewritesText(base, head) {
      var pieces: seq<Bytes> :| && |pieces| == |blob|
                                && (forall p :: 0 <= p < |blob| ==> IsPiece(base, head, p, pieces[p]))
                                && head.blob == Joined(pieces);
      assert pieces == emitted;
    }
    assert forall p :: 0 <= p < |blob| ==> IsPiece(base, head, p, emitted[p]);
  }

  // ---------------------------------------------------------------- accepting a ledger

  ghost predicate SomethingChanges(base: Table, head: Table)
  {
    exists i, change :: 0 <= i < |base.entries| && IsChange(base.entries[i], head.entries, change)
  }

  /** The new ledger is the old one with something lowered or retired, and nothing else changed. */
  ghost predicate Accepts(base: Ledger, head: Ledger)
    requires Parsed(base)
  {
    && TableAccepted(FileLines, base.blob, base.files, head.files)
    && TableAccepted(PublicSurface, base.blob, base.surfaces, head.surfaces)
    && (SomethingChanges(base.files, head.files) || SomethingChanges(base.surfaces, head.surfaces))
    && RewritesText(base, head)
  }

  /** Something changes exactly if there are changes. */
  lemma {:induction false} ChangesAreSomething(base: Table, head: Table)
    requires DistinctIdentities(base.entries) && DistinctIdentities(head.entries)
    ensures SomethingChanges(base, head) <==> ChangesIn(base, head) != map[]
  {
    var changes := ChangesIn(base, head);
    ChangesAreReported(base.entries, head.entries, |base.entries|);
    hide IsChange, ChangesUpTo;
    if changes != map[] {
      var identity :| identity in changes;
      assert exists i :: 0 <= i < |base.entries| && base.entries[i].identity == identity;
    }
  }

  lemma {:induction false} SpliceRewrites(base: Ledger, head: Ledger)
    requires Parsed(base)
    requires OneToken(base.files.sections, |base.files.entries|)
    requires OneToken(base.surfaces.sections, |base.surfaces.entries|)
    ensures var edits := AllEdits(base, head);
            && Separate(base.blob, edits) && Spliceable(base.blob, SortEdits(edits), 0)
            && Spliced(base.blob, SortEdits(edits), 0) == Rewritten(base, head)
  {
    var edits := AllEdits(base, head);
    EditsSeparate(base, head);
    SortedSpliceable(base.blob, edits);
    SeparateAsSet(base.blob, edits);
    SplicedIsReplaced(base.blob, AsSet(edits), SortEdits(edits), 0);
  }

  lemma {:induction false} SeparateAsSet(blob: Bytes, edits: seq<Edit>)
    requires Separate(blob, edits)
    ensures SeparateSet(blob, AsSet(edits)) && Ahead(AsSet(edits), SortEdits(edits), 0)
  {
    forall e, f | e in edits && f in edits && e != f
      ensures Before(e.span, f.span) || Before(f.span, e.span)
    {
      var i :| 0 <= i < |edits| && edits[i] == e;
      var j :| 0 <= j < |edits| && edits[j] == f;
    }
    var sorted := SortEdits(edits);
    assert forall i :: 0 <= i < |sorted| ==> sorted[i] in sorted;
  }

  /** No edits are asked for exactly when nothing changes. */
  lemma {:induction false} NoChangesNoEdits(base: Table, head: Table, n: nat)
    requires n <= |base.entries| && OneToken(base.sections, n) && DistinctIdentities(base.entries)
    ensures var changes := ChangesUpTo(base.entries, head.entries, n);
            EditsUpTo(base, changes, n) == [] <==> changes == map[]
  {
    if n == 0 {
    } else {
      NoChangesNoEdits(base, head, n - 1);
      var before, entry := ChangesUpTo(base.entries, head.entries, n - 1), base.entries[n - 1];
      ChangesNames(base.entries, head.entries, n - 1);
      var change := ChangeOf(entry, head.entries);
      if change.Some? {
        assert entry.identity in before[entry.identity := change.value];
      }
    }
  }

  lemma {:induction false} AllReported(base: Table, head: Table)
    requires DistinctIdentities(base.entries) && DistinctIdentities(head.entries)
    ensures ReportsChanges(base.entries, head.entries, ChangesIn(base, head))
  {
    ChangesAreReported(base.entries, head.entries, |base.entries|);
  }

  /** Accepts exactly the heads that `Accepts` describes, and reports what changed. */
  method ReconstructExactRatchet(base: Ledger, head: Ledger) returns (result: Result<(Changes, Changes), Error>)
    requires Parsed(base) && Parsed(head)
    ensures result.Success? <==> Accepts(base, head)
    ensures result.Success? ==> ReportsChanges(base.files.entries, head.files.entries, result.value.0)
    ensures result.Success? ==> ReportsChanges(base.surfaces.entries, head.surfaces.entries, result.value.1)
  {
    var files := RatchetTable(FileLines, base.blob, base.files, head.files);
    if files.Failure? {
      return Failure(files.error);
    }
    var surfaces := RatchetTable(PublicSurface, base.blob, base.surfaces, head.surfaces);
    if surfaces.Failure? {
      return Failure(surfaces.error);
    }
    NoChangesNoEdits(base.files, head.files, |base.files.entries|);
    NoChangesNoEdits(base.surfaces, head.surfaces, |base.surfaces.entries|);
    SpliceRewrites(base, head);
    RewrittenIsPieces(base, head);
    ChangesAreSomething(base.files, head.files);
    ChangesAreSomething(base.surfaces, head.surfaces);
    AllReported(base.files, head.files);
    AllReported(base.surfaces, head.surfaces);
    hide RewritesText, SomethingChanges, ReportsChanges, TableAccepted, Parsed;
    var edits := files.value.0 + surfaces.value.0;
    if edits == [] {
      return Failure(NoRatchet);
    }
    var text := Splice(base.blob, edits);
    if text != head.blob {
      return Failure(ChangedOutside);
    }
    return Success((files.value.1, surfaces.value.1));
  }

  // ---------------------------------------------------------------- the ratchet only turns one way

  function Ceilings(entries: seq<Entry>): (ceilings: seq<nat>)
    ensures |ceilings| == |entries|
  {
    seq(|entries|, i requires 0 <= i < |entries| => entries[i].ceiling)
  }

  function TotalCeiling(ledger: Ledger): nat
  {
    Sum(Ceilings(ledger.files.entries)) + Sum(Ceilings(ledger.surfaces.entries))
  }

  /** What the head allows the base's entries: their new ceilings, none for retired ones. */
  function NewCeilings(base: seq<Entry>, head: seq<Entry>): (ceilings: seq<nat>)
    ensures |ceilings| == |base|
  {
    seq(|base|, i requires 0 <= i < |base| =>
      var kept := Find(head, base[i].identity); if kept.Some? then kept.value.ceiling else 0)
  }

  lemma {:induction false} FindUnique(entries: seq<Entry>, i: nat)
    requires DistinctIdentities(entries) && i < |entries|
    ensures Find(entries, entries[i].identity) == Some(entries[i])
  {
    if i < |entries| - 1 {
      FindUnique(entries[..|entries| - 1], i);
    }
  }

  lemma {:induction false} SumPrefix(xs: seq<nat>, n: nat)
    requires 0 < n <= |xs|
    ensures Sum(xs[..n]) == Sum(xs[..n - 1]) + xs[n - 1]
  {
    assert xs[..n][..n - 1] == xs[..n - 1];
  }

  /** If the last of the retained identities is that of `base[n - 1]`, it names the head's last entry. */
  lemma {:induction false} LastRetained(base: seq<Entry>, head: seq<Entry>, n: nat, m: nat)
    requires 0 < n <= |base| && m <= |head|
    requires Identities(head)[..m] == RetainedIdentities(base[..n], head)
    ensures if Find(head, base[n - 1].identity).None? then
              Identities(head)[..m] == RetainedIdentities(base[..n - 1], head)
            else && m > 0 && head[m - 1].identity == base[n - 1].identity
                 && Identities(head)[..m - 1] == RetainedIdentities(base[..n - 1], head)
  {
    assert base[..n][..n - 1] == base[..n - 1];
    if Find(head, base[n - 1].identity).Some? {
      assert Identities(head)[..m][m - 1] == base[n - 1].identity;
      assert Identities(head)[..m][..m - 1] == Identities(head)[..m - 1];
    }
  }

  /** The head has no entries but the retained ones: its total is that of the new ceilings. */
  lemma {:induction false} HeadTotal(base: seq<Entry>, head: seq<Entry>, n: nat, m: nat)
    requires n <= |base| && m <= |head| && DistinctIdentities(head)
    requires Identities(head)[..m] == RetainedIdentities(base[..n], head)
    ensures Sum(NewCeilings(base, head)[..n]) == Sum(Ceilings(head)[..m])
  {
    if n == 0 {
      assert base[..0] == [];
    } else {
      LastRetained(base, head, n, m);
      SumPrefix(NewCeilings(base, head), n);
      hide RetainedIdentities, Sum;
      if Find(head, base[n - 1].identity).None? {
        HeadTotal(base, head, n - 1, m);
      } else {
        FindUnique(head, m - 1);
        HeadTotal(base, head, n - 1, m - 1);
        SumPrefix(Ceilings(head), m);
      }
    }
  }

  /** An accepted table never allows more, and allows strictly less where something with a ceiling changes. */
  lemma {:induction false} TableFalls(kind: Kind, blob: Bytes, base: Table, head: Table)
    requires Located(blob, base.sections) && TableAccepted(kind, blob, base, head) && DistinctIdentities(head.entries)
    ensures Sum(Ceilings(head.entries)) <= Sum(Ceilings(base.entries))
    ensures Sum(Ceilings(head.entries)) == Sum(Ceilings(base.entries)) ==>
              forall i :: 0 <= i < |base.entries| ==>
                        ChangeOf(base.entries[i], head.entries) in {None, Some(Change(0, None))}
  {
    var old_, new_ := Ceilings(base.entries), NewCeilings(base.entries, head.entries);
    assert base.entries[..|base.entries|] == base.entries;
    assert Identities(head.entries)[..|head.entries|] == Identities(head.entries);
    HeadTotal(base.entries, head.entries, |base.entries|, |head.entries|);
    assert new_[..|new_|] == new_ && Ceilings(head.entries)[..|head.entries|] == Ceilings(head.entries);
    forall i | 0 <= i < |new_|
      ensures new_[i] <= old_[i]
    {
      assert EntryAccepted(blob, base, head, i);
    }
    SumMonotone(new_, old_);
    if Sum(new_) == Sum(old_) {
      forall i | 0 <= i < |base.entries|
        ensures ChangeOf(base.entries[i], head.entries) in {None, Some(Change(0, None))}
      {
        assert new_[i] == old_[i];
      }
    }
  }

  lemma {:induction false} NothingChanges(base: Table, head: Table)
    requires DistinctIdentities(head.entries)
    requires forall i :: 0 <= i < |base.entries| ==> ChangeOf(base.entries[i], head.entries).None?
    ensures !SomethingChanges(base, head)
  {
    forall i | 0 <= i < |base.entries|
      ensures forall change :: !IsChange(base.entries[i], head.entries, change)
    {
      ChangeOfIsChange(base.entries[i], head.entries);
    }
  }

  /** A table whose head has as many entries retires none. */
  lemma {:induction false} FullRetains(base: seq<Entry>, head: seq<Entry>)
    ensures |RetainedIdentities(base, head)| <= |base|
    ensures |RetainedIdentities(base, head)| == |base| ==>
              forall i :: 0 <= i < |base| ==> Find(head, base[i].identity).Some?
  {
    if base == [] {
    } else {
      FullRetains(base[..|base| - 1], head);
    }
  }

  /** Every accepted ratchet lowers the sum of all ceilings. */
  lemma {:induction false} RatchetLowersTotal(base: Ledger, head: Ledger)
    requires Parsed(base) && Parsed(head) && Accepts(base, head)
    ensures TotalCeiling(head) < TotalCeiling(base)
  {
    TableFalls(FileLines, base.blob, base.files, head.files);
    TableFalls(PublicSurface, base.blob, base.surfaces, head.surfaces);
    hide SomethingChanges, RewritesText, Sum;
    if SomethingChanges(base.files, head.files) {
      FilesFall(base, head);
    } else {
      SurfacesFall(base, head);
    }
  }

  lemma {:induction false} FilesFall(base: Ledger, head: Ledger)
    requires Parsed(base) && Parsed(head) && TableAccepted(FileLines, base.blob, base.files, head.files)
    requires SomethingChanges(base.files, head.files)
    ensures Sum(Ceilings(head.files.entries)) < Sum(Ceilings(base.files.entries))
  {
    TableFalls(FileLines, base.blob, base.files, head.files);
    if forall i :: 0 <= i < |base.files.entries| ==> ChangeOf(base.files.entries[i], head.files.entries).None? {
      NothingChanges(base.files, head.files);
    }
  }

  lemma {:induction false} SurfacesFall(base: Ledger, head: Ledger)
    requires Parsed(base) && Parsed(head) && TableAccepted(PublicSurface, base.blob, base.surfaces, head.surfaces)
    requires SomethingChanges(base.surfaces, head.surfaces)
    ensures Sum(Ceilings(head.surfaces.entries)) < Sum(Ceilings(base.surfaces.entries))
  {
    TableFalls(PublicSurface, base.blob, base.surfaces, head.surfaces);
    FullRetains(base.surfaces.entries, head.surfaces.entries);
    if forall i :: 0 <= i < |base.surfaces.entries| ==>
         ChangeOf(base.surfaces.entries[i], head.surfaces.entries).None? {
      NothingChanges(base.surfaces, head.surfaces);
    }
  }

  /** A succession of ledgers, each accepted against the one before it. */
  ghost predicate IsChain(ledgers: seq<Ledger>)
  {
    && (forall i :: 0 <= i < |ledgers| ==> Parsed(ledgers[i]))
    && (|ledgers| > 1 ==> Accepts(ledgers[0], ledgers[1]) && IsChain(ledgers[1..]))
  }

  /** Ratchets cannot go on for ever: a succession is no longer than the first sum of ceilings. */
  lemma {:induction false} ChainsAreFinite(ledgers: seq<Ledger>)
    requires ledgers != [] && IsChain(ledgers)
    ensures |ledgers| - 1 <= TotalCeiling(ledgers[0])
  {
    if |ledgers| > 1 {
      RatchetLowersTotal(ledgers[0], ledgers[1]);
      ChainsAreFinite(ledgers[1..]);
    }
  }

  /** An entry of the head is the base's entry of that name, at most as high. */
  predicate Descends(before: Entry, kept: Entry)
  {
    before.identity == kept.identity && before.metadata == kept.metadata && kept.ceiling <= before.ceiling
  }

  lemma {:induction false} RetainedAreOld(base: seq<Entry>, head: seq<Entry>)
    ensures forall identity :: identity in RetainedIdentities(base, head) ==>
                                 exists k :: 0 <= k < |base| && base[k].identity == identity
  {
    if base == [] {
    } else {
      RetainedAreOld(base[..|base| - 1], head);
      assert forall k :: 0 <= k < |base| - 1 ==> base[..|base| - 1][k] == base[k];
    }
  }

  lemma {:induction false} RetainedInOrder(base: seq<Entry>, head: seq<Entry>, i: nat, j: nat) returns (k: nat, l: nat)
    requires i < j < |RetainedIdentities(base, head)|
    ensures k < l < |base|
    ensures base[k].identity == RetainedIdentities(base, head)[i]
    ensures base[l].identity == RetainedIdentities(base, head)[j]
  {
    var init := base[..|base| - 1];
    var retained := RetainedIdentities(init, head);
    if j < |retained| {
      k, l := RetainedInOrder(init, head, i, j);
    } else {
      RetainedAreOld(init, head);
      assert retained[i] in retained;
      var place: nat :| place < |init| && init[place].identity == retained[i];
      k, l := place, |init|;
    }
  }

  lemma {:induction false} EntryDescends(kind: Kind, blob: Bytes, base: Table, head: Table, i: nat, k: nat)
    requires Located(blob, base.sections) && TableAccepted(kind, blob, base, head) && DistinctIdentities(head.entries)
    requires i < |head.entries| && k < |base.entries| && base.entries[k].identity == head.entries[i].identity
    ensures Descends(base.entries[k], head.entries[i])
  {
    FindUnique(head.entries, i);
    assert EntryAccepted(blob, base, head, k);
  }

  /** An accepted table adds no entry, and the entries it keeps stay in their old order. */
  lemma {:induction false} HeadAddsNothing(kind: Kind, blob: Bytes, base: Table, head: Table, i: nat, j: nat)
    requires Located(blob, base.sections) && TableAccepted(kind, blob, base, head) && DistinctIdentities(head.entries)
    requires i <= j < |head.entries|
    ensures exists k, l :: 0 <= k <= l < |base.entries| && (i < j ==> k < l)
                           && Descends(base.entries[k], head.entries[i]) && Descends(base.entries[l], head.entries[j])
  {
    var retained := RetainedIdentities(base.entries, head.entries);
    assert retained == Identities(head.entries);
    if i < j {
      var k, l := RetainedInOrder(base.entries, head.entries, i, j);
      EntryDescends(kind, blob, base, head, i, k);
      EntryDescends(kind, blob, base, head, j, l);
    } else {
      RetainedAreOld(base.entries, head.entries);
      assert retained[i] in retained;
      var k: nat :| k < |base.entries| && base.entries[k].identity == retained[i];
      EntryDescends(kind, blob, base, head, i, k);
    }
  }
}
