/**
 The scanner that lists the url() references of a style sheet.
 */
module CssUrls {
  import opened Wrappers
  import Html = LinkProjection

  const MAX_CSS_URLS: nat := 4096

  // ---------------------------------------------------------------- the grammar of a reference

  /** The letters of the token, in either case. */
  predicate IsUrlWord(text: string, i: nat)
  {
    && i + 3 <= |text|
    && text[i] in {'u', 'U'} && text[i + 1] in {'r', 'R'} && text[i + 2] in {'l', 'L'}
  }

  /** The first place from `i` on that holds no white space. */
  function SkipSpace(text: string, i: nat): (r: nat)
    requires i <= |text|
    ensures i <= r <= |text|
    ensures forall k :: i <= k < r ==> Html.IsSpace(text[k])
    ensures r < |text| ==> !Html.IsSpace(text[r])
    decreases |text| - i
  {
    if i < |text| && Html.IsSpace(text[i]) then SkipSpace(text, i + 1) else i
  }

  /** A reference starts at `i`: the word, white space and a parenthesis. */
  predicate IsCall(text: string, i: nat)
  {
    IsUrlWord(text, i) && var open := SkipSpace(text, i + 3); open < |text| && text[open] == '('
  }

  /** The first place from `i` on with the closing character, where a backslash hides what follows it. */
  function Closing(text: string, i: nat, stop: char): (r: nat)
    ensures i <= r
    ensures r < |text| ==> text[r] == stop
    decreases |text| - i
  {
    if i >= |text| then i
    else if text[i] == '\\' then Closing(text, i + 2, stop)
    else if text[i] == stop then i
    else Closing(text, i + 1, stop)
  }

  /** Removes the line breaks that a backslash continues. */
  function WithoutEscapedNewlines(s: string): string
  {
    if s == "" then ""
    else if |s| > 2 && s[..3] == "\\\r\n" then WithoutEscapedNewlines(s[3..])
    else if |s| > 1 && s[0] == '\\' && s[1] in {'\r', '\n'} then WithoutEscapedNewlines(s[2..])
    else [s[0]] + WithoutEscapedNewlines(s[1..])
  }

  lemma {:induction false} PlainStays(before: string, rest: string)
    requires '\\' !in before
    ensures WithoutEscapedNewlines(before + rest) == before + WithoutEscapedNewlines(rest)
  {
    if before == "" {
      assert before + rest == rest;
    } else {
      var s := before + rest;
      assert before[0] in before && s[0] == before[0] && s[1..] == before[1..] + rest;
      assert |s| > 2 ==> s[..3][0] == s[0];
      PlainStays(before[1..], rest);
    }
  }

  lemma {:induction false} EscapeAtStart(c: char, rest: string)
    ensures WithoutEscapedNewlines("\\" + [c] + rest)
         == if c == '\n' || (c == '\r' && (rest == "" || rest[0] != '\n')) then WithoutEscapedNewlines(rest)
            else if c == '\r' then WithoutEscapedNewlines(rest[1..])
            else "\\" + WithoutEscapedNewlines([c] + rest)
  {
    var s := "\\" + [c] + rest;
    assert s[0] == '\\' && s[1] == c && s[1..] == [c] + rest && s[2..] == rest;
    assert rest != "" ==> s[..3] == ['\\', c, rest[0]] && s[3..] == rest[1..];
  }

  /** A backslash and the line break behind it, of one or two characters, are dropped; others stay. */
  lemma {:induction false} ContinuedLine(before: string, c: char, rest: string)
    requires '\\' !in before
    ensures WithoutEscapedNewlines(before) == before
    ensures WithoutEscapedNewlines(before + "\\" + [c] + rest)
         == before + if c == '\n' || (c == '\r' && (rest == "" || rest[0] != '\n')) then WithoutEscapedNewlines(rest)
                     else if c == '\r' then WithoutEscapedNewlines(rest[1..])
                     else "\\" + WithoutEscapedNewlines([c] + rest)
  {
    PlainStays(before, "");
    assert before + "" == before && WithoutEscapedNewlines("") == "";
    PlainStays(before, "\\" + [c] + rest);
    assert before + "\\" + [c] + rest == before + ("\\" + [c] + rest);
    hide WithoutEscapedNewlines;
    EscapeAtStart(c, rest);
  }

  function Strip(s: string): string
  {
    Html.TrimRight(Html.TrimLeft(s))
  }

  /** A reference: where it starts, where the text after it starts, and its value. */
  datatype Reference = Reference(start: nat, next: nat, value: string)

  /** The reference at a call, unless it is not terminated. */
  function ReferenceAt(text: string, i: nat): (r: Option<Reference>)
    requires IsCall(text, i)
    ensures r.Some? ==> r.value.start == i && i < r.value.next <= |text|
  {
    var start := SkipSpace(text, SkipSpace(text, i + 3) + 1);
    if start < |text| && text[start] in {'"', '\''} then
      var end := Closing(text, start + 1, text[start]);
      if end >= |text| then None
      else
        var close := SkipSpace(text, end + 1);
        if close < |text| && text[close] == ')' then
          Some(Reference(i, close + 1, Strip(WithoutEscapedNewlines(text[start + 1..end]))))
        else None
    else
      var end := Closing(text, start, ')');
      if end >= |text| then None else Some(Reference(i, end + 1, Strip(text[start..end])))
  }

  // ---------------------------------------------------------------- what a scan finds

  datatype Stop = AtEnd | Unterminated(position: nat) | TooMany(position: nat)

  /** The scan has seen all of the text before this place. */
  function Reached(text: string, stop: Stop): nat
  {
    if stop.AtEnd? then |text| else stop.position
  }

  /** The references are calls of the text, one behind the other, in the given range. */
  ghost predicate AreReferences(text: string, offset: nat, references: seq<Reference>, end: nat)
  {
    if references == [] then offset <= end
    else
      var last := references[|references| - 1];
      && IsCall(text, last.start) && ReferenceAt(text, last.start) == Some(last)
      && last.next <= end
      && AreReferences(text, offset, references[..|references| - 1], last.start)
  }

  /** Every call in the range starts in one of the references. */
  ghost predicate CoversCalls(text: string, offset: nat, references: seq<Reference>, end: nat)
  {
    forall i :: offset <= i < end && IsCall(text, i) ==> Covered(references, i)
  }

  ghost predicate Covered(references: seq<Reference>, i: nat)
  {
    exists k :: 0 <= k < |references| && references[k].start <= i < references[k].next
  }

  ghost predicate IsScan(text: string, references: seq<Reference>, stop: Stop)
  {
    && AreReferences(text, 0, references, Reached(text, stop))
    && CoversCalls(text, 0, references, Reached(text, stop))
    && match stop
       case AtEnd => |references| <= MAX_CSS_URLS
       case Unterminated(position) =>
         IsCall(text, position) && ReferenceAt(text, position).None? && |references| <= MAX_CSS_URLS
       case TooMany(position) =>
         |references| == MAX_CSS_URLS + 1 && position == references[MAX_CSS_URLS].next
  }

  function Values(references: seq<Reference>): (r: seq<string>)
    ensures |r| == |references|
  {
    seq(|references|, i requires 0 <= i < |references| => references[i].value)
  }

  // ---------------------------------------------------------------- the scanner

  method PastSpace(text: string, from: nat) returns (cursor: nat)
    requires from <= |text|
    ensures cursor == SkipSpace(text, from)
  {
    cursor := from;
    while cursor < |text| && Html.IsSpace(text[cursor])
      invariant from <= cursor <= |text| && SkipSpace(text, cursor) == SkipSpace(text, from)
    {
      cursor := cursor + 1;
    }
  }

  method FindClosing(text: string, from: nat, stop: char) returns (cursor: nat)
    requires stop != '\\'
    ensures cursor == Closing(text, from, stop)
  {
    cursor := from;
    while cursor < |text| && text[cursor] != stop
      invariant from <= cursor && Closing(text, cursor, stop) == Closing(text, from, stop)
      decreases |text| - cursor
    {
      cursor := cursor + if text[cursor] == '\\' then 2 else 1;
    }
  }

  /** Reads the reference at a call, from behind its opening parenthesis. */
  method ReadReference(text: string, start: nat, behind: nat) returns (closed: bool, value: string, cursor: nat)
    requires IsCall(text, start) && behind == SkipSpace(text, start + 3) + 1
    ensures closed <==> ReferenceAt(text, start).Some?
    ensures closed ==> ReferenceAt(text, start) == Some(Reference(start, cursor + 1, value))
  {
    hide Html.IsSpace, SkipSpace, IsUrlWord, WithoutEscapedNewlines, Strip;
    cursor := PastSpace(text, behind);
    var quoted := cursor < |text| && text[cursor] in {'"', '\''};
    var stop := if quoted then text[cursor] else ')';
    if quoted {
      cursor := cursor + 1;
    }
    var valueStart := cursor;
    cursor := FindClosing(text, valueStart, stop);
    closed, value := false, "";
    if cursor < |text| {
      value := text[valueStart..cursor];
      if quoted {
        value := WithoutEscapedNewlines(value);
        cursor := PastSpace(text, cursor + 1);
        closed := cursor < |text| && text[cursor] == ')';
      } else {
        closed := true;
      }
      value := Strip(value);
    }
  }

  /** The first word from `offset` on. */
  method Search(text: string, offset: nat) returns (start: Option<nat>)
    requires offset <= |text|
    ensures start.None? ==> forall i :: offset <= i < |text| ==> !IsUrlWord(text, i)
    ensures start.Some? ==> offset <= start.value && IsUrlWord(text, start.value)
                            && forall i :: offset <= i < start.value ==> !IsUrlWord(text, i)
  {
    for i := offset to |text|
      invariant forall k :: offset <= k < i ==> !IsUrlWord(text, k)
    {
      if IsUrlWord(text, i) {
        return Some(i);
      }
    }
    return None;
  }

  /** No word starts inside a word or in the white space after it. */
  lemma {:induction false} NoWordBehind(text: string, i: nat, k: nat)
    requires IsUrlWord(text, i) && i < k < SkipSpace(text, i + 3)
    ensures !IsUrlWord(text, k)
  {
    if k >= i + 3 {
      assert Html.IsSpace(text[k]);
    }
  }

  lemma {:induction false} SkippedWord(text: string, offset: nat, start: nat, i: nat)
    requires IsUrlWord(text, start) && !IsCall(text, start)
    requires forall k :: offset <= k < start ==> !IsUrlWord(text, k)
    requires offset <= i < SkipSpace(text, start + 3)
    ensures !IsCall(text, i)
  {
    if i > start {
      NoWordBehind(text, start, i);
    }
  }

  lemma {:induction false} CoveredStays(references: seq<Reference>, more: Reference, i: nat)
    requires Covered(references, i)
    ensures Covered(references + [more], i)
  {
    var k :| 0 <= k < |references| && references[k].start <= i < references[k].next;
    assert (references + [more])[k] == references[k];
  }

  /** A reference at the first word from `offset` on covers the calls up to where it ends. */
  lemma {:induction false} CoverGrows(text: string, references: seq<Reference>, offset: nat, last: Reference)
    requires offset <= last.start && CoversCalls(text, 0, references, offset)
    requires forall k :: offset <= k < last.start ==> !IsUrlWord(text, k)
    ensures CoversCalls(text, 0, references + [last], last.next)
  {
    hide IsUrlWord;
    forall i | 0 <= i < last.next && IsCall(text, i)
      ensures Covered(references + [last], i)
    {
      if i < offset {
        CoveredStays(references, last, i);
      } else {
        assert IsUrlWord(text, i);
        assert (references + [last])[|references|] == last;
      }
    }
  }

  lemma {:induction false} ReferencesGrow(text: string, references: seq<Reference>, offset: nat, last: Reference)
    requires AreReferences(text, 0, references, offset) && offset <= last.start
    requires IsCall(text, last.start) && ReferenceAt(text, last.start) == Some(last)
    ensures AreReferences(text, 0, references + [last], last.next)
  {
    AreReferencesUpTo(text, references, offset, last.start);
    assert (references + [last])[..|references|] == references;
  }

  lemma {:induction false} AreReferencesUpTo(text: string, references: seq<Reference>, end: nat, more: nat)
    requires AreReferences(text, 0, references, end) && end <= more
    ensures AreReferences(text, 0, references, more)
  {
  }

  /** Lists the references of a text, up to the first one that is not terminated or one too many. */
  method CssUrlValues(text: string) returns (values: seq<string>, stop: Stop)
    ensures exists references :: IsScan(text, references, stop) && values == Values(references)
  {
    hide IsCall, ReferenceAt, IsUrlWord, Covered, AreReferences, CoversCalls, Html.IsSpace;
    ghost var references: seq<Reference> := [];
    values, stop := [], AtEnd;
    var offset := 0;
    EmptyScan(text);
    while offset < |text|
      invariant offset <= |text| && |references| <= MAX_CSS_URLS
      invariant AreReferences(text, 0, references, offset) && CoversCalls(text, 0, references, offset)
      invariant values == Values(references)
      invariant stop == AtEnd
      decreases |text| - offset
    {
      var found := Search(text, offset);
      if found.None? {
        break;
      }
      var start := found.value;
      WordInside(text, start);
      var cursor := PastSpace(text, start + 3);
      CallNeedsParenthesis(text, start);
      if cursor >= |text| || text[cursor] != '(' {
        SkippedCover(text, references, offset, start);
        AreReferencesUpTo(text, references, offset, cursor);
        offset := cursor;
        continue;
      }
      var closed, value;
      closed, value, cursor := ReadReference(text, start, cursor + 1);
      if !closed {
        UnwordedCover(text, references, offset, start);
        AreReferencesUpTo(text, references, offset, start);
        stop := Unterminated(start);
        assert IsScan(text, references, stop);
        return;
      }
      ghost var last := Reference(start, cursor + 1, value);
      ReferenceInside(text, start);
      ReferencesGrow(text, references, offset, last);
      CoverGrows(text, references, offset, last);
      references := references + [last];
      values := values + [value];
      if |values| > MAX_CSS_URLS {
        stop := TooMany(cursor + 1);
        assert IsScan(text, references, stop);
        return;
      }
      offset := cursor + 1;
    }
    UnwordedCover(text, references, offset, |text|);
    AreReferencesUpTo(text, references, offset, |text|);
    assert IsScan(text, references, stop);
  }

  lemma {:induction false} EmptyScan(text: string)
    ensures AreReferences(text, 0, [], 0) && CoversCalls(text, 0, [], 0)
  {
  }

  lemma {:induction false} WordInside(text: string, i: nat)
    requires IsUrlWord(text, i)
    ensures i + 3 <= |text|
  {
  }

  lemma {:induction false} CallNeedsParenthesis(text: string, i: nat)
    requires IsUrlWord(text, i) && i + 3 <= |text|
    ensures IsCall(text, i) <==> var open := SkipSpace(text, i + 3); open < |text| && text[open] == '('
  {
  }

  lemma {:induction false} ReferenceInside(text: string, i: nat)
    requires IsCall(text, i) && ReferenceAt(text, i).Some?
    ensures i < ReferenceAt(text, i).value.next <= |text|
  {
  }

  lemma {:induction false} SkippedCover(text: string, references: seq<Reference>, offset: nat, start: nat)
    requires offset <= start && start + 3 <= |text| && CoversCalls(text, 0, references, offset)
    requires IsUrlWord(text, start) && !IsCall(text, start)
    requires forall k :: offset <= k < start ==> !IsUrlWord(text, k)
    ensures CoversCalls(text, 0, references, SkipSpace(text, start + 3))
  {
    hide IsUrlWord, IsCall, Covered;
    forall i | offset <= i < SkipSpace(text, start + 3)
      ensures !IsCall(text, i)
    {
      SkippedWord(text, offset, start, i);
    }
  }

  lemma {:induction false} UnwordedCover(text: string, references: seq<Reference>, offset: nat, end: nat)
    requires CoversCalls(text, 0, references, offset)
    requires forall k :: offset <= k < end ==> !IsUrlWord(text, k)
    ensures CoversCalls(text, 0, references, end)
  {
    hide IsUrlWord, Covered;
  }

  // ---------------------------------------------------------------- what a scan finds is determined

  function EndOf(references: seq<Reference>, k: nat): nat
    requires k <= |references|
  {
    if k == 0 then 0 else references[k - 1].next
  }

  lemma {:induction false} LastInList(text: string, references: seq<Reference>, end: nat)
    requires AreReferences(text, 0, references, end) && references != []
    ensures var last := references[|references| - 1];
            && last.start < last.next <= end
            && IsCall(text, last.start) && ReferenceAt(text, last.start) == Some(last)
            && AreReferences(text, 0, references[..|references| - 1], last.start)
  {
    hide IsCall, ReferenceAt;
    ReferenceInside(text, references[|references| - 1].start);
  }

  lemma {:induction false} ReferenceInList(text: string, references: seq<Reference>, end: nat, k: nat)
    requires AreReferences(text, 0, references, end) && k < |references|
    ensures references[k].start < references[k].next <= end
    ensures IsCall(text, references[k].start) && ReferenceAt(text, references[k].start) == Some(references[k])
  {
    hide IsCall, ReferenceAt, AreReferences;
    LastInList(text, references, end);
    var n := |references| - 1;
    if k < n {
      ReferenceInList(text, references[..n], references[n].start, k);
    }
  }

  lemma {:induction false} ReferencesInOrder(text: string, references: seq<Reference>, end: nat, j: nat, k: nat)
    requires AreReferences(text, 0, references, end) && j < k < |references|
    ensures references[j].next <= references[k].start
  {
    hide IsCall, ReferenceAt;
    var n := |references| - 1;
    if k < n {
      assert references[..n][k] == references[k] && references[..n][j] == references[j];
      ReferencesInOrder(text, references[..n], references[n].start, j, k);
    } else {
      assert references[..n][j] == references[j];
      ReferenceInList(text, references[..n], references[n].start, j);
    }
  }

  /** A call behind the first `k` references and before the next one cannot be missed. */
  lemma {:induction false} NoCallMissed(text: string, references: seq<Reference>, stop: Stop, k: nat, i: nat)
    requires IsScan(text, references, stop) && k <= |references|
    requires EndOf(references, k) <= i && (k < |references| ==> i < references[k].start)
    ensures !(IsCall(text, i) && i < Reached(text, stop))
  {
    hide IsCall, ReferenceAt, AreReferences;
    forall j: nat | j < |references|
      ensures !(references[j].start <= i < references[j].next)
    {
      var end := Reached(text, stop);
      if j + 1 < k {
        ReferencesInOrder(text, references, end, j, k - 1);
        ReferenceInList(text, references, end, k - 1);
      } else if k < j {
        ReferencesInOrder(text, references, end, k, j);
        ReferenceInList(text, references, end, k);
      }
    }
  }

  lemma {:induction false} StartsBehind(text: string, references: seq<Reference>, end: nat, k: nat)
    requires AreReferences(text, 0, references, end) && k < |references|
    ensures EndOf(references, k) <= references[k].start < end
    ensures IsCall(text, references[k].start) && ReferenceAt(text, references[k].start) == Some(references[k])
  {
    hide IsCall, ReferenceAt, AreReferences;
    ReferenceInList(text, references, end, k);
    if k > 0 {
      ReferencesInOrder(text, references, end, k - 1, k);
    }
  }

  lemma {:induction false} EndsBehind(text: string, references: seq<Reference>, end: nat)
    requires AreReferences(text, 0, references, end)
    ensures EndOf(references, |references|) <= end
  {
  }

  lemma {:induction false} ScansAgree(
    text: string, a: seq<Reference>, b: seq<Reference>, stop: Stop, stop': Stop, k: nat)
    requires IsScan(text, a, stop) && IsScan(text, b, stop') && k <= |a| && k <= |b|
    ensures a[..k] == b[..k]
  {
    hide IsScan;
    if k == 0 {
    } else {
      var n := k - 1;
      ScansAgree(text, a, b, stop, stop', n);
      assert n > 0 ==> a[..n][n - 1] == b[..n][n - 1];
      NextAgrees(text, a, b, stop, stop', n);
      assert a[..k] == a[..n] + [a[n]] && b[..k] == b[..n] + [b[n]];
    }
  }

  lemma {:induction false} NextAgrees(
    text: string, a: seq<Reference>, b: seq<Reference>, stop: Stop, stop': Stop, n: nat)
    requires IsScan(text, a, stop) && IsScan(text, b, stop') && n < |a| && n < |b|
    requires EndOf(a, n) == EndOf(b, n)
    ensures a[n] == b[n]
  {
    hide IsCall, ReferenceAt, AreReferences, CoversCalls;
    StartsBehind(text, a, Reached(text, stop), n);
    StartsBehind(text, b, Reached(text, stop'), n);
    if a[n].start < b[n].start {
      NoCallMissed(text, b, stop', n, a[n].start);
    } else if b[n].start < a[n].start {
      NoCallMissed(text, a, stop, n, b[n].start);
    }
  }

  lemma {:induction false} NotLonger(text: string, a: seq<Reference>, b: seq<Reference>, stop: Stop, stop': Stop)
    requires IsScan(text, a, stop) && IsScan(text, b, stop')
    ensures |b| <= |a|
  {
    hide IsCall, ReferenceAt, AreReferences, CoversCalls;
    var n := |a|;
    if n < |b| {
      ScansAgree(text, a, b, stop, stop', n);
      assert n > 0 ==> a[..n][n - 1] == b[..n][n - 1];
      StartsBehind(text, b, Reached(text, stop'), n);
      EndsBehind(text, a, Reached(text, stop));
      CallInside(text, b[n].start);
      if stop.Unterminated? && stop.position < b[n].start {
        NoCallMissed(text, b, stop', n, stop.position);
      }
      NoCallMissed(text, a, stop, n, b[n].start);
    }
  }

  lemma {:induction false} CallInside(text: string, i: nat)
    requires IsCall(text, i)
    ensures i < |text|
  {
  }

  /** A text has one scan. */
  lemma {:induction false} ScanIsUnique(text: string, a: seq<Reference>, b: seq<Reference>, stop: Stop, stop': Stop)
    requires IsScan(text, a, stop) && IsScan(text, b, stop')
    ensures a == b && stop == stop'
  {
    NotLonger(text, a, b, stop, stop');
    NotLonger(text, b, a, stop', stop);
    ScansAgree(text, a, b, stop, stop', |a|);
    assert a[..|a|] == a && b[..|b|] == b;
    hide IsCall, ReferenceAt, AreReferences, CoversCalls;
    SameStop(text, a, stop, stop');
    SameStop(text, a, stop', stop);
  }

  lemma {:induction false} SameStop(text: string, references: seq<Reference>, stop: Stop, stop': Stop)
    requires IsScan(text, references, stop) && IsScan(text, references, stop')
    ensures stop.Unterminated? ==> stop'.Unterminated? && stop'.position <= stop.position
    ensures stop.TooMany? ==> stop == stop'
  {
    hide IsCall, ReferenceAt, AreReferences, CoversCalls;
    if stop.Unterminated? {
      EndsBehind(text, references, Reached(text, stop));
      CallInside(text, stop.position);
      NoCallMissed(text, references, stop', |references|, stop.position);
    }
  }

  // ---------------------------------------------------------------- printed references read back

  /** A value that needs no escapes. */
  predicate IsPlain(value: string)
  {
    '"' !in value && '\\' !in value && Strip(value) == value
  }

  /** Text between references that has no word in it. */
  predicate IsGap(gap: string)
  {
    'u' !in gap && 'U' !in gap
  }

  const OPEN := "url(\""
  const CLOSE := "\")"

  function PrintedReference(value: string): string
  {
    OPEN + value + CLOSE
  }

  function Printed(values: seq<string>, gap: string): string
  {
    if values == [] then ""
    else Printed(values[..|values| - 1], gap) + PrintedReference(values[|values| - 1]) + gap
  }

  /** Where the printed references are. */
  function PrintedAt(values: seq<string>, gap: string): (r: seq<Reference>)
    ensures |r| == |values|
  {
    if values == [] then []
    else
      var init, last := values[..|values| - 1], values[|values| - 1];
      var start := |Printed(init, gap)|;
      PrintedAt(init, gap) + [Reference(start, start + |PrintedReference(last)|, last)]
  }

  lemma {:induction false} NoEscapesToRemove(s: string)
    requires '\\' !in s
    ensures WithoutEscapedNewlines(s) == s
  {
    if s == "" {
    } else {
      assert s[0] in s;
      assert |s| > 2 ==> s[..3][0] == s[0];
      NoEscapesToRemove(s[1..]);
    }
  }

  lemma {:induction false} ClosingBehind(text: string, i: nat, end: nat, stop: char)
    requires i <= end < |text| && text[end] == stop && stop != '\\'
    requires forall k :: i <= k < end ==> text[k] != stop && text[k] != '\\'
    ensures Closing(text, i, stop) == end
    decreases end - i
  {
    if i < end {
      ClosingBehind(text, i + 1, end, stop);
    }
  }

  lemma {:induction false} NoSpaceToSkip(text: string, i: nat)
    requires i < |text| && text[i] in {'(', ')', '"'}
    ensures SkipSpace(text, i) == i
  {
  }

  /** The characters of a printed reference, where it stands. */
  ghost predicate Stands(text: string, s: nat, value: string)
  {
    var end := s + 5 + |value|;
    && end + 2 <= |text|
    && text[s] == 'u' && text[s + 1] == 'r' && text[s + 2] == 'l' && text[s + 3] == '(' && text[s + 4] == '"'
    && (forall k :: 0 <= k < |value| ==> text[s + 5 + k] == value[k])
    && text[end] == '"' && text[end + 1] == ')'
  }

  lemma {:induction false} PrintedStands(before: string, value: string, behind: string)
    ensures Stands(before + PrintedReference(value) + behind, |before|, value)
  {
    var p, s := PrintedReference(value), |before|;
    var text := before + p + behind;
    assert |p| == 7 + |value|;
    assert forall k :: 0 <= k < |p| ==> text[s + k] == p[k];
    assert p[0] == 'u' && p[1] == 'r' && p[2] == 'l' && p[3] == '(' && p[4] == '"';
    assert p[5 + |value|] == '"' && p[6 + |value|] == ')';
    forall k | 0 <= k < |value|
      ensures text[s + 5 + k] == value[k]
    {
      assert p[5 + k] == value[k] && text[s + (5 + k)] == p[5 + k];
    }
  }

  lemma {:induction false} StandingIsReference(text: string, s: nat, value: string)
    requires Stands(text, s, value) && IsPlain(value)
    ensures IsCall(text, s) && ReferenceAt(text, s) == Some(Reference(s, s + 7 + |value|, value))
  {
    hide Strip, WithoutEscapedNewlines, SkipSpace, Closing;
    var end := s + 5 + |value|;
    NoSpaceToSkip(text, s + 3);
    NoSpaceToSkip(text, s + 4);
    NoSpaceToSkip(text, end + 1);
    forall k | s + 5 <= k < end
      ensures text[k] != '"' && text[k] != '\\'
    {
      assert text[s + 5 + (k - s - 5)] == value[k - s - 5];
      assert value[k - s - 5] in value;
    }
    ClosingBehind(text, s + 5, end, '"');
    assert text[s + 5..end] == value;
    NoEscapesToRemove(value);
    assert Strip(value) == value;
  }

  /** One more printed reference and the gap behind it. */
  lemma {:induction false} NextPrinted(
    before: string, value: string, gap: string, rest: string, references: seq<Reference>)
    requires IsGap(gap) && IsPlain(value)
    requires var text := before + PrintedReference(value) + (gap + rest);
             AreReferences(text, 0, references, |before|) && CoversCalls(text, 0, references, |before|)
    ensures var text, next := before + PrintedReference(value) + (gap + rest), |before| + |PrintedReference(value)|;
            var more := references + [Reference(|before|, next, value)];
            AreReferences(text, 0, more, next + |gap|) && CoversCalls(text, 0, more, next + |gap|)
  {
    hide AreReferences, CoversCalls, IsCall, ReferenceAt, IsPlain, Stands, IsUrlWord, PrintedReference, IsGap;
    var text := before + PrintedReference(value) + (gap + rest);
    PrintedStands(before, value, gap + rest);
    StandingIsReference(text, |before|, value);
    PrintedLength(value);
    var last := Reference(|before|, |before| + |PrintedReference(value)|, value);
    ReferencesGrow(text, references, |before|, last);
    CoverGrows(text, references, |before|, last);
    AreReferencesUpTo(text, references + [last], last.next, last.next + |gap|);
    GapHasNoWord(before + PrintedReference(value), gap, rest);
    assert text == before + PrintedReference(value) + gap + rest;
    UnwordedCover(text, references + [last], last.next, last.next + |gap|);
  }

  lemma {:induction false} PrintedScans(values: seq<string>, gap: string, rest: string)
    requires IsGap(gap) && forall value :: value in values ==> IsPlain(value)
    ensures var text, end := Printed(values, gap) + rest, |Printed(values, gap)|;
            && AreReferences(text, 0, PrintedAt(values, gap), end)
            && CoversCalls(text, 0, PrintedAt(values, gap), end)
            && Values(PrintedAt(values, gap)) == values
  {
    hide AreReferences, CoversCalls, IsPlain, PrintedReference, IsGap;
    if values == [] {
      assert Printed(values, gap) + rest == rest;
      EmptyScan(rest);
    } else {
      var init, value := values[..|values| - 1], values[|values| - 1];
      var before := Printed(init, gap);
      var behind := PrintedReference(value) + (gap + rest);
      PrintedScans(init, gap, behind);
      assert before + behind == before + PrintedReference(value) + (gap + rest);
      NextPrinted(before, value, gap, rest, PrintedAt(init, gap));
      assert Printed(values, gap) == before + PrintedReference(value) + gap;
      assert Printed(values, gap) + rest == before + PrintedReference(value) + (gap + rest);
      assert values == init + [value];
      PrintedLength(value);
      ValuesNext(PrintedAt(init, gap), PrintedAt(values, gap)[|init|]);
    }
  }

  lemma {:induction false} ValuesNext(references: seq<Reference>, last: Reference)
    ensures Values(references + [last]) == Values(references) + [last.value]
  {
  }

  lemma {:induction false} PrintedLength(value: string)
    ensures |PrintedReference(value)| == 7 + |value|
  {
  }

  lemma {:induction false} GapHasNoWord(before: string, gap: string, rest: string)
    requires IsGap(gap)
    ensures forall k :: |before| <= k < |before| + |gap| ==> !IsUrlWord(before + gap + rest, k)
  {
    forall k | |before| <= k < |before| + |gap|
      ensures !IsUrlWord(before + gap + rest, k)
    {
      assert (before + gap + rest)[k] == gap[k - |before|];
      assert gap[k - |before|] in gap;
    }
  }

  /** Scanning printed values, whatever stands between them, gives the values. */
  lemma {:induction false} PrintedReadsBack(values: seq<string>, gap: string, references: seq<Reference>, stop: Stop)
    requires IsGap(gap) && |values| <= MAX_CSS_URLS && forall value :: value in values ==> IsPlain(value)
    requires IsScan(Printed(values, gap), references, stop)
    ensures stop == AtEnd && Values(references) == values
  {
    hide AreReferences, CoversCalls, IsCall, ReferenceAt, IsPlain;
    var text := Printed(values, gap);
    PrintedScans(values, gap, "");
    assert text + "" == text;
    assert IsScan(text, PrintedAt(values, gap), AtEnd);
    ScanIsUnique(text, references, PrintedAt(values, gap), stop, AtEnd);
  }
}
