/**
 Which toggles the link projection accepts, which faults it names, and what it counts: the rules
 in terms of words, attributes and elements.
 */
module ToggleRules {
  import opened Wrappers
  import opened HtmlDocument
  import opened LinkProjection

  // ---------------------------------------------------------------- words and labels

  lemma {:induction false} SpacesAreListed(c: char)
    ensures IsSpace(c) <==>
            c in {'\t', '\n', '\U{0B}', '\U{0C}', '\r', '\U{1C}', '\U{1D}', '\U{1E}', '\U{1F}', ' ', '\U{85}', '\U{A0}',
                  '\U{1680}', '\U{2000}', '\U{2001}', '\U{2002}', '\U{2003}', '\U{2004}', '\U{2005}', '\U{2006}',
                  '\U{2007}', '\U{2008}', '\U{2009}', '\U{200A}', '\U{2028}', '\U{2029}', '\U{202F}', '\U{205F}',
                  '\U{3000}'}
  {
  }

  /** A word of a text: characters that are no white space, with white space or an end on both sides. */
  ghost predicate IsWordAt(s: string, i: nat, j: nat)
  {
    && i < j <= |s|
    && (forall k :: i <= k < j ==> !IsSpace(s[k]))
    && (i == 0 || IsSpace(s[i - 1])) && (j == |s| || IsSpace(s[j]))
  }

  ghost predicate HasWord(s: string, word: string)
  {
    exists i: nat, j: nat :: IsWordAt(s, i, j) && s[i..j] == word
  }

  /** The words of an unfinished word and what follows: the whole first word, and those behind it. */
  lemma {:induction false} SplitWords(s: string, before: string, word: string)
    requires forall k :: 0 <= k < |before| ==> !IsSpace(before[k])
    ensures word in Split(s, before) <==> HasWord(before + s, word)
  {
    if s == "" {
      assert before + s == before;
      if before != "" {
        assert IsWordAt(before, 0, |before|) && before[0..|before|] == before;
      }
      forall i: nat, j: nat | IsWordAt(before, i, j)
        ensures before[i..j] == before
      {
        assert i == 0 && j == |before|;
      }
    } else if IsSpace(s[0]) {
      SplitWords(s[1..], "", word);
      assert "" + s[1..] == s[1..];
      FirstWord(before, s, word);
    } else {
      SplitWords(s[1..], before + [s[0]], word);
      assert before + [s[0]] + s[1..] == before + s;
    }
  }

  /** Words of the end of a text are words of the text, if white space is before the end. */
  lemma {:induction false} WordsOfEnd(t: string, k: nat, i: nat, j: nat)
    requires 0 < k <= |t| && IsSpace(t[k - 1]) && i < j <= |t| - k
    ensures IsWordAt(t[k..], i, j) <==> IsWordAt(t, i + k, j + k)
    ensures t[k..][i..j] == t[i + k..j + k]
  {
    hide IsSpace;
    assert forall l :: 0 <= l < |t| - k ==> t[k..][l] == t[l + k];
    if IsWordAt(t[k..], i, j) {
      forall l | i + k <= l < j + k
        ensures !IsSpace(t[l])
      {
        assert t[k..][l - k] == t[l];
      }
    }
  }

  lemma {:induction false} WordIsFirst(before: string, s: string, i: nat, j: nat)
    requires s != "" && IsSpace(s[0]) && forall k :: 0 <= k < |before| ==> !IsSpace(before[k])
    requires IsWordAt(before + s, i, j)
    ensures (i == 0 && j == |before|) || |before| < i
  {
    hide IsSpace;
    var t := before + s;
    assert t[|before|] == s[0] && forall k :: 0 <= k < |before| ==> t[k] == before[k];
    assert i != |before|;
    if i < |before| {
      assert i == 0;
      assert j <= |before|;
    }
  }

  /** The words of a text with white space at a place are those before and those behind it. */
  lemma {:induction false} WordsOfRest(before: string, s: string, i: nat, j: nat)
    requires s != "" && IsSpace(s[0]) && IsWordAt(s[1..], i, j)
    ensures HasWord(before + s, s[1..][i..j])
  {
    hide IsSpace;
    var t, k := before + s, |before| + 1;
    assert t[k..] == s[1..] && t[k - 1] == s[0];
    WordsOfEnd(t, k, i, j);
  }

  lemma {:induction false} WordsInRest(before: string, s: string, i: nat, j: nat)
    requires s != "" && IsSpace(s[0]) && IsWordAt(before + s, i, j) && |before| < i
    ensures HasWord(s[1..], (before + s)[i..j])
  {
    hide IsSpace;
    var t, k := before + s, |before| + 1;
    assert t[k..] == s[1..] && t[k - 1] == s[0];
    WordsOfEnd(t, k, i - k, j - k);
  }

  lemma {:induction false} WordBefore(before: string, s: string)
    requires s != "" && IsSpace(s[0]) && forall k :: 0 <= k < |before| ==> !IsSpace(before[k])
    requires before != ""
    ensures HasWord(before + s, before)
  {
    hide IsSpace;
    var t := before + s;
    assert t[0..|before|] == before && t[|before|] == s[0];
    assert forall k :: 0 <= k < |before| ==> t[k] == before[k];
    assert IsWordAt(t, 0, |before|);
  }

  lemma {:induction false} FirstWord(before: string, s: string, word: string)
    requires s != "" && IsSpace(s[0]) && forall k :: 0 <= k < |before| ==> !IsSpace(before[k])
    ensures HasWord(before + s, word) <==> (before != "" && word == before) || HasWord(s[1..], word)
  {
    hide IsSpace;
    if before != "" {
      WordBefore(before, s);
    }
    if i: nat, j: nat :| IsWordAt(before + s, i, j) && (before + s)[i..j] == word {
      WordIsFirst(before, s, i, j);
      if i > |before| {
        WordsInRest(before, s, i, j);
      } else {
        assert (before + s)[0..|before|] == before;
      }
    }
    if i: nat, j: nat :| IsWordAt(s[1..], i, j) && s[1..][i..j] == word {
      WordsOfRest(before, s, i, j);
    }
  }

  /** An element has a class exactly if it is a word of its class attribute. */
  lemma {:induction false} ClassIsWord(attrs: seq<Attribute>, name: string)
    ensures HasClass(attrs, name) <==>
            ValueOf(attrs, "class").Some? && HasWord(ValueOf(attrs, "class").value, name)
  {
    if ValueOf(attrs, "class").Some? {
      SplitWords(ValueOf(attrs, "class").value, "", name);
      assert "" + ValueOf(attrs, "class").value == ValueOf(attrs, "class").value;
    }
  }

  lemma {:induction false} TrimmedLeft(s: string) returns (i: nat)
    ensures i <= |s| && TrimLeft(s) == s[i..] && (forall k :: 0 <= k < i ==> IsSpace(s[k]))
    ensures i < |s| ==> !IsSpace(s[i])
  {
    if s != "" && IsSpace(s[0]) {
      i := TrimmedLeft(s[1..]);
      i := i + 1;
    } else {
      i := 0;
    }
  }

  lemma {:induction false} TrimmedRight(s: string) returns (j: nat)
    ensures j <= |s| && TrimRight(s) == s[..j] && (forall k :: j <= k < |s| ==> IsSpace(s[k]))
    ensures j > 0 ==> !IsSpace(s[j - 1])
  {
    if s != "" && IsSpace(s[|s| - 1]) {
      j := TrimmedRight(s[..|s| - 1]);
      assert s[..|s| - 1][..j] == s[..j];
    } else {
      j := |s|;
    }
  }

  /** `trimmed` is the text without the white space at its ends. */
  ghost predicate IsTrimmed(s: string, trimmed: string)
  {
    exists i, j :: 0 <= i <= j <= |s| && trimmed == s[i..j]
                   && (forall k :: 0 <= k < i || j <= k < |s| ==> IsSpace(s[k]))
                   && (i < j ==> !IsSpace(s[i]) && !IsSpace(s[j - 1]))
  }

  lemma {:induction false} LabelIsTrimmed(s: string)
    ensures IsTrimmed(s, TrimRight(TrimLeft(s)))
  {
    var i := TrimmedLeft(s);
    var j := TrimmedRight(s[i..]);
    assert s[i..][..j] == s[i..i + j];
    assert forall k :: i + j <= k < |s| ==> s[k] == s[i..][k - i];
  }

  /** The texts among the tokens of a document, in order. */
  ghost function Texts(tokens: seq<Token>): string
  {
    if tokens == [] then "" else (if tokens[0].Words? then tokens[0].text else "") + Texts(tokens[1..])
  }

  lemma {:induction false} TextsAppend(s: seq<Token>, t: seq<Token>)
    ensures Texts(s + t) == Texts(s) + Texts(t)
  {
    if s == [] {
      assert s + t == t;
    } else {
      TextsAppend(s[1..], t);
      assert (s + t)[1..] == s[1..] + t;
    }
  }

  /** The text of a document as it was read is that of its tokens. */
  lemma {:induction false} TextIsOfTokens(f: Forest)
    requires WellFormed(f)
    ensures NodeText(f) == Texts(Flatten(f))
  {
    match f
    case Empty =>
    case Chars(text, next) =>
      TextIsOfTokens(next);
      TextsAppend([Words(text)], Flatten(next));
    case Element(tag, attrs, opening, closing, children, next) =>
      TextIsOfTokens(next);
      TextIsOfTokens(children);
      if closing == "" {
        TextsAppend([Leaf(tag, attrs, opening)], Flatten(next));
      } else {
        var first := [Open(tag, attrs, opening)];
        TextsAppend(first, Flatten(children));
        TextsAppend(first + Flatten(children), [Close(tag)]);
        TextsAppend(first + Flatten(children) + [Close(tag)], Flatten(next));
      }
  }

  // ---------------------------------------------------------------- links

  /** The value of an attribute is that of the first one with the name. */
  lemma {:induction false} ValueIsFirst(attrs: seq<Attribute>, name: string)
    ensures (forall i :: 0 <= i < |attrs| ==> attrs[i].0 != name) ==> ValueOf(attrs, name) == None
    ensures forall i :: 0 <= i < |attrs| && attrs[i].0 == name && (forall k :: 0 <= k < i ==> attrs[k].0 != name)
                        ==> ValueOf(attrs, name) == attrs[i].1
  {
    if attrs == [] {
    } else {
      ValueIsFirst(attrs[1..], name);
      forall i | 0 <= i < |attrs| && attrs[i].0 == name && (forall k :: 0 <= k < i ==> attrs[k].0 != name)
        ensures ValueOf(attrs, name) == attrs[i].1
      {
        if i > 0 {
          assert attrs[0].0 != name;
          assert attrs[1..][i - 1] == attrs[i];
          assert forall k :: 0 <= k < i - 1 ==> attrs[1..][k] == attrs[k + 1];
        }
      }
    }
  }

  /** Why a link is refused, in the order of the checks. */
  ghost predicate LinkFault(attrs: seq<Attribute>, children: Forest, error: Error)
  {
    var repeated := exists i, j :: 0 <= i < j < |attrs| && attrs[i].0 == attrs[j].0;
    var other := exists i :: 0 <= i < |attrs| && attrs[i].0 !in {"class", "data-notable-ty", "href", "title"};
    var inactive := ValueOf(attrs, "href").None?;
    match error
    case AnchorAttributes => repeated || other
    case AnchorNotActive => !repeated && !other && inactive
    case NestedAnchor => !repeated && !other && !inactive && HasElement(children, "a")
    case _ => false
  }

  /** The elements of a document have the tag somewhere. */
  ghost predicate HasElement(f: Forest, tag: string)
  {
    match f
    case Empty => false
    case Element(t, _, _, _, children, next) => t == tag || HasElement(children, tag) || HasElement(next, tag)
    case _ => HasElement(f.next, tag)
  }

  lemma {:induction false} AnyAnchor(f: Forest)
    ensures Any(f, (tag, _) => tag == "a") <==> HasElement(f, "a")
  {
    if f == Empty {
    } else {
      AnyAnchor(f.next);
      if f.Element? {
        AnyAnchor(f.children);
      }
    }
  }

  /** A link is accepted exactly if it has no fault, and else its first fault is named. */
  lemma {:induction false} AnchorRules(attrs: seq<Attribute>, children: Forest)
    ensures AnchorError(attrs, children).None? <==> forall error :: !LinkFault(attrs, children, error)
    ensures AnchorError(attrs, children).Some? ==> LinkFault(attrs, children, AnchorError(attrs, children).value)
  {
    AnyAnchor(children);
    ValueIsFirst(attrs, "id");
    hide Any, HasElement, ValueOf;
    if forall error :: !LinkFault(attrs, children, error) {
      assert !LinkFault(attrs, children, AnchorAttributes) && !LinkFault(attrs, children, AnchorNotActive);
      assert !LinkFault(attrs, children, NestedAnchor);
    }
  }

  // ---------------------------------------------------------------- toggles

  /** A summary with one section that has an id, and links that can all be moved. */
  ghost predicate IsSignature(items: Forest)
  {
    DirectCount(items, "summary") == 1 &&
    var content := SummaryContent(items);
    && DirectCount(content, "section") == 1
    && (var id := ValueOf(Direct(content, "section").attrs, "id"); id.Some? && |id.value| > 0)
    && ActiveHrefs(content) != [] && LinkError(content).None?
  }

  /** A hidden summary without links and with one caption, `text` but for white space around it. */
  ghost predicate IsHidden(items: Forest, text: string)
  {
    DirectCount(items, "summary") == 1 &&
    var summary := Direct(items, "summary");
    && DirectCount(summary.children, "section") == 0
    && HasClass(summary.attrs, "hideme")
    && ActiveHrefs(summary.children) == []
    && DirectCount(summary.children, "span") == 1
    && text == TrimRight(TrimLeft(NodeText(Direct(summary.children, "span").children)))
  }

  /** Digits without a leading zero. */
  ghost predicate IsNumber(s: string)
  {
    s != "" && s[0] != '0' && forall i :: 0 <= i < |s| ==> '0' <= s[i] <= '9'
  }

  /** A number of fields or of variants. */
  ghost predicate CountsItems(s: string)
  {
    exists number: string ::
      IsNumber(number) && (s == "Show " + number + " fields" || s == "Show " + number + " variants")
  }

  /** A label of collapsed items: one of two fixed ones, or one that counts them. */
  ghost predicate IsCountLabel(s: string)
  {
    || s == "This enum is marked as non-exhaustive" || s == "This struct is marked as non-exhaustive"
    || CountsItems(s)
  }

  lemma {:induction false} CountIsNumber(s: string, number: string, ending: string)
    requires IsNumber(number)
    requires ending in {" fields", " variants"} && s == "Show " + number + ending
    ensures IsNumberLabel(s)
  {
    var n := 5 + |number|;
    assert |ending| >= 7 && s[..5] == "Show " && s[5..n] == number && s[5] == number[0] && s[n..] == ending;
    assert AllDigits(s[5..n]);
  }

  lemma {:induction false} NumberOf(start: string, s: string, number: string, ending: string)
    requires |start| + |number| + |ending| == |s| && start <= s
    requires number == s[|start|..|start| + |number|] && ending == s[|start| + |number|..]
    ensures s == start + number + ending
  {
  }

  lemma {:induction false} NumberIsCount(s: string)
    requires IsNumberLabel(s)
    ensures CountsItems(s)
  {
    var n :| 6 <= n <= |s| && s[..5] == "Show " && '1' <= s[5] <= '9' && AllDigits(s[5..n])
             && s[n..] in {" fields", " variants"};
    var number, ending := s[5..n], s[n..];
    NumberOf(s[..5], s, number, ending);
    assert number[0] == s[5] && IsNumber(number);
    hide IsNumber;
  }

  lemma {:induction false} CountsIsNumber(s: string)
    requires CountsItems(s)
    ensures IsNumberLabel(s)
  {
    hide IsNumberLabel, IsNumber;
    var number: string :|
      IsNumber(number) && (s == "Show " + number + " fields" || s == "Show " + number + " variants");
    if s == "Show " + number + " fields" {
      CountIsNumber(s, number, " fields");
    } else {
      CountIsNumber(s, number, " variants");
    }
  }

  lemma {:induction false} SpecialIsCount(s: string)
    ensures IsSpecialLabel(s) <==> IsCountLabel(s)
  {
    hide IsNumberLabel, CountsItems;
    if IsNumberLabel(s) {
      NumberIsCount(s);
    }
    if CountsItems(s) {
      CountsIsNumber(s);
    }
  }

  /** A hidden summary whose label is the plain text that is to be shortened. */
  ghost predicate IsDescription(items: Forest)
  {
    && IsHidden(items, "Expand description")
    && Direct(SummaryContent(items), "span").children == Chars("Expand description", Empty)
  }

  /**
   A toggle is accepted exactly if it is a signature, a description or a count, and each is dealt
   with and counted as what it is.
   */
  lemma {:induction false} AcceptedToggles(items: Forest)
    ensures ProjectToggle(items).Success? <==>
            || IsSignature(items) || IsDescription(items)
            || exists text :: IsHidden(items, text) && IsCountLabel(text)
    ensures IsSignature(items) ==>
              var n := |ActiveHrefs(SummaryContent(items))|;
              ProjectToggle(items) == Success((MoveLinks(items), Stats(1, 1, n, 0, 0, 0)))
    ensures IsDescription(items) ==> ProjectToggle(items) == Success((Relabel(items), Stats(1, 0, 0, 1, 1, 0)))
    ensures forall text :: IsHidden(items, text) && IsCountLabel(text) ==>
              ProjectToggle(items) == Success((items, Stats(1, 0, 0, 1, 0, 1)))
  {
    hide MoveLinks, Relabel, TrimLeft, TrimRight, NodeText, HasClass, IsCountLabel, IsSpecialLabel, LinkError,
         ActiveHrefs, ValueOf, IsSpace;
    if DirectCount(items, "summary") == 1 {
      var content := SummaryContent(items);
      if DirectCount(content, "section") == 1 {
        var id := ValueOf(Direct(content, "section").attrs, "id");
        assert id in {None, Some("")} <==> !(id.Some? && |id.value| > 0);
      }
      if DirectCount(content, "span") == 1 {
        var text := LabelText(Direct(content, "span"));
        SpecialIsCount(text);
        DescriptionIsNoCount();
        if IsSpecialLabel(text) && ProjectToggle(items).Success? && !IsSignature(items) && !IsDescription(items) {
          assert IsHidden(items, text);
        }
      }
    }
  }

  lemma {:induction false} DescriptionIsNoCount()
    ensures !IsCountLabel("Expand description")
  {
    assert "Expand description"[0] == 'E' && "This enum is marked as non-exhaustive"[0] == 'T';
    assert "This struct is marked as non-exhaustive"[0] == 'T';
    forall number: string
      ensures "Expand description" != "Show " + number + " fields"
      ensures "Expand description" != "Show " + number + " variants"
    {
      assert ("Show " + number + " fields")[0] == 'S' == ("Show " + number + " variants")[0];
    }
  }

  /** Why a toggle is refused, in the order of the checks. */
  ghost predicate ToggleFault(items: Forest, error: Error)
  {
    var summaries := DirectCount(items, "summary");
    if summaries != 1 then error == SummaryCount
    else
      var summary := Direct(items, "summary");
      var content, sections := summary.children, DirectCount(summary.children, "section");
      if sections > 1 then error == SectionCount
      else if sections == 1 then
        var id := ValueOf(Direct(content, "section").attrs, "id");
        if id.None? || id.value == "" || ActiveHrefs(content) == [] then error == SectionShape
        else LinkError(content) == Some(error)
      else if !HasClass(summary.attrs, "hideme") then error == UnexpectedSummary
      else if ActiveHrefs(content) != [] then error == HidemeLink
      else if DirectCount(content, "span") != 1 then error == LabelCount
      else
        var text := TrimRight(TrimLeft(NodeText(Direct(content, "span").children)));
        if text == "Expand description" then error == LabelShape
        else error == UnexpectedLabel(text)
  }

  lemma {:induction false} ToggleFaults(items: Forest)
    ensures ProjectToggle(items).Failure? ==> ToggleFault(items, ProjectToggle(items).error)
  {
    hide MoveLinks, Relabel, TrimLeft, TrimRight, NodeText, HasClass, IsSpecialLabel, LinkError, ActiveHrefs, ValueOf;
  }
}
