/**
 The link projection of the Rust reference: the links inside the summary of a disclosure
 toggle become inert spans, and copies of them follow the summary as one group.
 */
module LinkProjection {
  import opened Wrappers
  import opened HtmlDocument

  // ---------------------------------------------------------------- reading elements

  /** The value of an attribute; none if it is missing or has no value. */
  function ValueOf(attrs: seq<Attribute>, name: string): Option<string>
  {
    if attrs == [] then None
    else if attrs[0].0 == name then attrs[0].1
    else ValueOf(attrs[1..], name)
  }

  predicate Repeats(attrs: seq<Attribute>, name: string)
  {
    exists i, j :: 0 <= i < j < |attrs| && attrs[i].0 == name && attrs[j].0 == name
  }

  predicate Has(attrs: seq<Attribute>, name: string)
  {
    exists i :: 0 <= i < |attrs| && attrs[i].0 == name
  }

  predicate IsSpace(c: char)
  {
    || '\t' <= c <= '\r' || '\U{1C}' <= c <= ' ' || c == '\U{85}' || c == '\U{A0}' || c == '\U{1680}'
    || '\U{2000}' <= c <= '\U{200A}' || c == '\U{2028}' || c == '\U{2029}' || c == '\U{202F}'
    || c == '\U{205F}' || c == '\U{3000}'
  }

  /** The words of a string, as whitespace separates them. */
  function Split(s: string, word: string := ""): seq<string>
  {
    if s == "" then (if word == "" then [] else [word])
    else if IsSpace(s[0]) then (if word == "" then [] else [word]) + Split(s[1..])
    else Split(s[1..], word + [s[0]])
  }

  predicate HasClass(attrs: seq<Attribute>, name: string)
  {
    var classes := ValueOf(attrs, "class");
    classes.Some? && name in Split(classes.value)
  }

  predicate IsToggle(tag: string, attrs: seq<Attribute>)
  {
    tag == "details" && HasClass(attrs, "toggle")
  }

  predicate IsLink(tag: string, attrs: seq<Attribute>)
  {
    tag == "a" && ValueOf(attrs, "href").Some?
  }

  /** Whether some element of the document satisfies `p`; markup in a text item has no elements yet. */
  predicate Any(f: Forest, p: (string, seq<Attribute>) -> bool)
  {
    match f
    case Empty => false
    case Element(tag, attrs, _, _, children, next) => p(tag, attrs) || Any(children, p) || Any(next, p)
    case _ => Any(f.next, p)
  }

  /** How many items of this list, not of the lists inside them, are elements with the tag. */
  function DirectCount(f: Forest, tag: string): nat
  {
    if f == Empty then 0
    else (if f.Element? && f.tag == tag then 1 else 0) + DirectCount(f.next, tag)
  }

  /** The first of them, without the items after it. */
  function Direct(f: Forest, tag: string): (e: Forest)
    requires DirectCount(f, tag) > 0
    ensures e.Element? && e.tag == tag
  {
    if f.Element? && f.tag == tag then Element(f.tag, f.attrs, f.opening, f.closing, f.children, Empty)
    else Direct(f.next, tag)
  }

  /** The addresses of the active links, in document order. */
  function ActiveHrefs(f: Forest): seq<string>
  {
    match f
    case Empty => []
    case Element(tag, attrs, _, _, children, next) =>
      (if IsLink(tag, attrs) then [ValueOf(attrs, "href").value] else []) + ActiveHrefs(children) + ActiveHrefs(next)
    case _ => ActiveHrefs(f.next)
  }

  function NodeText(f: Forest): string
  {
    match f
    case Empty => ""
    case Chars(text, next) => text + NodeText(next)
    case Element(_, _, _, _, children, next) => NodeText(children) + NodeText(next)
    case Markup(content, next) => Render(content) + NodeText(next)
  }

  function TrimLeft(s: string): string
  {
    if s != "" && IsSpace(s[0]) then TrimLeft(s[1..]) else s
  }

  function TrimRight(s: string): string
  {
    if s != "" && IsSpace(s[|s| - 1]) then TrimRight(s[..|s| - 1]) else s
  }

  predicate AllDigits(s: string)
  {
    forall i :: 0 <= i < |s| ==> '0' <= s[i] <= '9'
  }

  const SPECIAL_LABELS := {"This enum is marked as non-exhaustive", "This struct is marked as non-exhaustive"}

  predicate IsNumberLabel(s: string)
  {
    exists n :: 6 <= n <= |s| && s[..5] == "Show " && '1' <= s[5] <= '9' && AllDigits(s[5..n])
                && s[n..] in {" fields", " variants"}
  }

  /** The labels rustdoc gives to collapsed fields and variants. */
  predicate IsSpecialLabel(s: string)
  {
    s in SPECIAL_LABELS || IsNumberLabel(s)
  }

  /** The trimmed text of a caption. */
  function LabelText(caption: Forest): string
    requires caption.Element?
  {
    TrimRight(TrimLeft(NodeText(caption.children)))
  }

  // ---------------------------------------------------------------- the projection

  datatype Error =
    | RepeatedAttribute(name: string) | ExistingMarker | ExistingGroup
    | SummaryCount | SectionCount | SectionShape
    | AnchorAttributes | AnchorNotActive | NestedAnchor
    | HidemeLink | LabelCount | LabelShape | UnexpectedLabel(text: string) | UnexpectedSummary
    | Malformed(error: ParseError) | HrefOrderChanged | ScriptChanged | LinkSurvived | MarkerDrift

  datatype Stats = Stats(
    toggles: nat, sections: nat, links: nat, hideme: nat, descriptions: nat, special: nat)

  const NONE_COUNTED := Stats(0, 0, 0, 0, 0, 0)

  function Add(a: Stats, b: Stats): Stats
  {
    Stats(a.toggles + b.toggles, a.sections + b.sections, a.links + b.links,
          a.hideme + b.hideme, a.descriptions + b.descriptions, a.special + b.special)
  }

  const MARKER := "data-eqiora-href"
  const GROUP_CLASS := "eqiora-signature-links"
  const LABEL_CLASS := "eqiora-signature-links__label"

  const LINK_ATTRIBUTES: set<string> := {"class", "data-notable-ty", "href", "title"}

  function Reference(c: char): string
  {
    match c
    case '&' => "&amp;"
    case '<' => "&lt;"
    case '>' => "&gt;"
    case '"' => "&quot;"
    case '\'' => "&#x27;"
    case _ => [c]
  }

  function Escape(s: string): string
  {
    if s == "" then "" else Reference(s[0]) + Escape(s[1..])
  }

  function ValueText(value: Option<string>): string
  {
    if value.None? then "" else "=\"" + Escape(value.value) + "\""
  }

  function AttributesText(attrs: seq<Attribute>): string
  {
    if attrs == [] then "" else " " + attrs[0].0 + ValueText(attrs[0].1) + AttributesText(attrs[1..])
  }

  function CanonicalStart(tag: string, attrs: seq<Attribute>): string
  {
    "<" + tag + AttributesText(attrs) + ">"
  }

  function Renamed(attrs: seq<Attribute>): seq<Attribute>
  {
    if attrs == [] then []
    else [(if attrs[0].0 == "href" then MARKER else attrs[0].0, attrs[0].1)] + Renamed(attrs[1..])
  }

  /** Why a link cannot be projected, if it cannot. */
  function AnchorError(attrs: seq<Attribute>, children: Forest): Option<Error>
  {
    if exists i, j :: 0 <= i < j < |attrs| && attrs[i].0 == attrs[j].0 then Some(AnchorAttributes)
    else if exists i :: 0 <= i < |attrs| && attrs[i].0 !in LINK_ATTRIBUTES then Some(AnchorAttributes)
    else if ValueOf(attrs, "href").None? || ValueOf(attrs, "id").Some? then Some(AnchorNotActive)
    else if Any(children, (tag, _) => tag == "a") then Some(NestedAnchor)
    else None
  }

  /** The first link of the list, in document order, that cannot be projected. */
  function LinkError(f: Forest): Option<Error>
  {
    match f
    case Empty => None
    case Element(tag, attrs, _, _, children, next) =>
      var error := if IsLink(tag, attrs) then AnchorError(attrs, children) else LinkError(children);
      if error.Some? then error else LinkError(next)
    case _ => LinkError(f.next)
  }

  /** Every link becomes a span that keeps its address under another name. */
  function Spans(f: Forest): Forest
  {
    match f
    case Empty => Empty
    case Chars(text, next) => Chars(text, Spans(next))
    case Markup(content, next) => Markup(content, Spans(next))
    case Element(tag, attrs, opening, closing, children, next) =>
      if IsLink(tag, attrs) then
        Element("span", Renamed(attrs), CanonicalStart("span", Renamed(attrs)), EndTag("span"), children, Spans(next))
      else
        Element(tag, attrs, opening, closing, Spans(children), Spans(next))
  }

  /** Copies of the links, in document order. */
  function Links(f: Forest): Forest
  {
    match f
    case Empty => Empty
    case Element(tag, attrs, opening, closing, children, next) =>
      if IsLink(tag, attrs) then Element(tag, attrs, opening, closing, children, Links(next))
      else Append(Links(children), Links(next))
    case _ => Links(f.next)
  }

  /** The group of copied links that follows a projected summary. */
  function Group(links: Forest): Forest
  {
    var caption := Element("span", [("class", Some(LABEL_CLASS))], "<span class=\"" + LABEL_CLASS + "\">",
                           EndTag("span"), Chars("Signature links:", Empty), links);
    Element("div", [("class", Some(GROUP_CLASS))], "<div class=\"" + GROUP_CLASS + "\">", EndTag("div"),
            caption, Empty)
  }

  /** The list with the children of its one element of the tag replaced, and `after` put behind it. */
  function Replace(f: Forest, tag: string, children: Forest, after: Forest): Forest
    requires DirectCount(f, tag) > 0
  {
    if f.Element? && f.tag == tag then
      Element(f.tag, f.attrs, f.opening, f.closing, children, Append(after, f.next))
    else match f
      case Chars(text, next) => Chars(text, Replace(next, tag, children, after))
      case Markup(content, next) => Markup(content, Replace(next, tag, children, after))
      case Element(t, attrs, opening, closing, cs, next) =>
        Element(t, attrs, opening, closing, cs, Replace(next, tag, children, after))
  }

  /** The content of a toggle's summary. */
  function SummaryContent(items: Forest): Forest
    requires DirectCount(items, "summary") > 0
  {
    Direct(items, "summary").children
  }

  /** The items with the summary's links made into spans and copied into a group behind it. */
  function MoveLinks(items: Forest): Forest
    requires DirectCount(items, "summary") > 0
  {
    var content := SummaryContent(items);
    Replace(items, "summary", Spans(content), Markup(Group(Links(content)), Empty))
  }

  /** The items with the summary's label changed. */
  function Relabel(items: Forest): Forest
    requires DirectCount(items, "summary") > 0 && DirectCount(SummaryContent(items), "span") > 0
  {
    Replace(items, "summary", Replace(SummaryContent(items), "span", Chars("Description", Empty), Empty), Empty)
  }

  /** The items of a toggle after its own summary has been dealt with, and what that counted. */
  function ProjectToggle(items: Forest): Result<(Forest, Stats), Error>
  {
    if DirectCount(items, "summary") != 1 then Failure(SummaryCount)
    else
      var content := SummaryContent(items);
      var hrefs := ActiveHrefs(content);
      if DirectCount(content, "section") > 1 then Failure(SectionCount)
      else if DirectCount(content, "section") == 1 then
        var id := ValueOf(Direct(content, "section").attrs, "id");
        if id in {None, Some("")} || hrefs == [] then Failure(SectionShape)
        else if LinkError(content).Some? then Failure(LinkError(content).value)
        else Success((MoveLinks(items), NONE_COUNTED.(toggles := 1, sections := 1, links := |hrefs|)))
      else if !HasClass(Direct(items, "summary").attrs, "hideme") then Failure(UnexpectedSummary)
      else if hrefs != [] then Failure(HidemeLink)
      else if DirectCount(content, "span") != 1 then Failure(LabelCount)
      else
        var text := LabelText(Direct(content, "span"));
        if text == "Expand description" then
          if !HasDescriptionLabel(content) then Failure(LabelShape)
          else Success((Relabel(items), NONE_COUNTED.(toggles := 1, hideme := 1, descriptions := 1)))
        else if IsSpecialLabel(text) then
          Success((items, NONE_COUNTED.(toggles := 1, hideme := 1, special := 1)))
        else Failure(UnexpectedLabel(text))
  }

  /** The label is exactly the generic text, without markup. */
  predicate HasDescriptionLabel(content: Forest)
  {
    DirectCount(content, "span") > 0 && Direct(content, "span").children == Chars("Expand description", Empty)
  }

  /** The three ways a toggle is dealt with: its links move, its label changes, or nothing does. */
  ghost predicate ToggleCase(items: Forest, items': Forest, stats: Stats)
  {
    DirectCount(items, "summary") == 1 &&
    var content := SummaryContent(items);
    || (&& LinkError(content).None? && ActiveHrefs(content) != [] && items' == MoveLinks(items)
        && stats.links == |ActiveHrefs(content)| && stats.sections == 1)
    || (&& ActiveHrefs(content) == [] && HasDescriptionLabel(content) && items' == Relabel(items)
        && stats.links == stats.sections == 0)
    || (ActiveHrefs(content) == [] && items' == items && stats.links == stats.sections == 0)
  }

  lemma {:induction false} ToggleCases(items: Forest)
    requires ProjectToggle(items).Success?
    ensures ToggleCase(items, ProjectToggle(items).value.0, ProjectToggle(items).value.1)
  {
    hide MoveLinks, Relabel, LabelText, HasClass, IsSpecialLabel, LinkError, ActiveHrefs;
  }

  // ---------------------------------------------------------------- a measure for the walk

  /** The number of elements and text items; inserted markup counts little. */
  function Size(f: Forest): nat
  {
    match f
    case Empty => 0
    case Element(_, _, _, _, children, next) => 2 + Size(children) + Size(next)
    case _ => 1 + Size(f.next)
  }

  lemma {:induction false} SizeAppend(f: Forest, g: Forest)
    ensures Size(Append(f, g)) == Size(f) + Size(g)
  {
    if f == Empty {
    } else {
      SizeAppend(f.next, g);
    }
  }

  lemma {:induction false} SizeSpans(f: Forest)
    ensures Size(Spans(f)) == Size(f)
  {
    if f == Empty {
    } else {
      SizeSpans(f.next);
      if f.Element? {
        SizeSpans(f.children);
      }
    }
  }

  lemma {:induction false} SizeReplace(f: Forest, tag: string, children: Forest, after: Forest)
    requires DirectCount(f, tag) > 0
    ensures Size(Replace(f, tag, children, after)) + Size(Direct(f, tag).children)
         == Size(f) + Size(children) + Size(after)
  {
    if f.Element? && f.tag == tag {
      SizeAppend(after, f.next);
      assert Size(Replace(f, tag, children, after)) == 2 + Size(children) + Size(Append(after, f.next));
    } else {
      SizeReplace(f.next, tag, children, after);
      assert Size(Replace(f, tag, children, after)) - Size(Replace(f.next, tag, children, after))
          == Size(f) - Size(f.next);
    }
  }

  lemma {:induction false} SizeMoveLinks(items: Forest)
    requires DirectCount(items, "summary") > 0
    ensures Size(MoveLinks(items)) == Size(items) + 1
  {
    var content := SummaryContent(items);
    SizeSpans(content);
    SizeReplace(items, "summary", Spans(content), Markup(Group(Links(content)), Empty));
  }

  lemma {:induction false} SizeRelabel(items: Forest)
    requires DirectCount(items, "summary") > 0 && HasDescriptionLabel(SummaryContent(items))
    ensures Size(Relabel(items)) == Size(items)
  {
    var content := SummaryContent(items);
    SizeReplace(content, "span", Chars("Description", Empty), Empty);
    SizeReplace(items, "summary", Replace(content, "span", Chars("Description", Empty), Empty), Empty);
  }

  /** Dealing with a summary adds at most one text item, the group. */
  lemma {:induction false} SizeToggle(items: Forest)
    requires ProjectToggle(items).Success?
    ensures Size(ProjectToggle(items).value.0) <= Size(items) + 1
  {
    ToggleCases(items);
    hide ProjectToggle, MoveLinks, Relabel, HasDescriptionLabel, LinkError;
    if ProjectToggle(items).value.0 == MoveLinks(items) {
      SizeMoveLinks(items);
    } else if HasDescriptionLabel(SummaryContent(items)) {
      SizeRelabel(items);
    }
  }

  /** The walk over the document: toggles outermost first, in document order. */
  function Project(f: Forest): Result<(Forest, Stats), Error>
    decreases Size(f)
  {
    match f
    case Empty => Success((Empty, NONE_COUNTED))
    case Chars(text, next) =>
      var rest := Project(next);
      if rest.Failure? then rest else Success((Chars(text, rest.value.0), rest.value.1))
    case Markup(content, next) =>
      var rest := Project(next);
      if rest.Failure? then rest else Success((Markup(content, rest.value.0), rest.value.1))
    case Element(tag, attrs, opening, closing, children, next) =>
      var own := if IsToggle(tag, attrs) then ProjectToggle(children) else Success((children, NONE_COUNTED));
      if own.Failure? then own
      else
        assert Size(own.value.0) <= Size(children) + 1 by {
          if IsToggle(tag, attrs) {
            SizeToggle(children);
          }
        }
        var inner := Project(own.value.0);
        if inner.Failure? then inner
        else
          var rest := Project(next);
          if rest.Failure? then rest
          else Success((Element(tag, attrs, opening, closing, inner.value.0, rest.value.0),
                        Add(own.value.1, Add(inner.value.1, rest.value.1))))
  }

  // ---------------------------------------------------------------- reading the output back

  /** The document that a printed document reads back as: inserted markup becomes elements. */
  ghost function Erase(f: Forest): Forest
  {
    match f
    case Empty => Empty
    case Chars(text, next) => Chars(text, Erase(next))
    case Element(tag, attrs, opening, closing, children, next) =>
      Element(tag, attrs, opening, closing, Erase(children), Erase(next))
    case Markup(content, next) => Append(content, Erase(next))
  }

  /** No inserted markup anywhere, as in a parsed document. */
  ghost predicate Plain(f: Forest)
  {
    match f
    case Empty => true
    case Chars(_, next) => Plain(next)
    case Element(_, _, _, _, children, next) => Plain(children) && Plain(next)
    case Markup(_, _) => false
  }

  /** No inserted markup below the items of this list. */
  ghost predicate Fresh(f: Forest)
  {
    match f
    case Empty => true
    case Element(_, _, _, _, children, next) => Plain(children) && Fresh(next)
    case _ => Fresh(f.next)
  }

  /** Well-formed once the inserted markup is read back. */
  ghost predicate Printable(f: Forest)
  {
    match f
    case Empty => true
    case Chars(_, next) => Printable(next)
    case Element(tag, _, _, closing, children, next) =>
      && (if closing == "" then children == Empty
          else closing == EndTag(tag) && tag !in VOID_TAGS && Printable(children))
      && Printable(next)
    case Markup(content, next) => WellFormed(content) && Printable(next)
  }

  /** The link addresses of the document as it reads back. */
  ghost function OutputHrefs(f: Forest): seq<string>
  {
    ActiveHrefs(Erase(f))
  }

  lemma {:induction false} WellFormedIsPlain(f: Forest)
    requires WellFormed(f)
    ensures Plain(f) && Fresh(f) && Printable(f)
  {
    if f == Empty {
    } else {
      WellFormedIsPlain(f.next);
      if f.Element? {
        WellFormedIsPlain(f.children);
      }
    }
  }

  lemma {:induction false} ErasePlain(f: Forest)
    requires Plain(f)
    ensures Erase(f) == f && Fresh(f)
  {
    if f == Empty {
    } else {
      ErasePlain(f.next);
      if f.Element? {
        ErasePlain(f.children);
      }
    }
  }

  lemma {:induction false} ErasePrints(f: Forest)
    requires Printable(f)
    ensures WellFormed(Erase(f)) && Flatten(Erase(f)) == Flatten(f)
  {
    if f == Empty {
    } else {
      ErasePrints(f.next);
      match f
      case Element(_, _, _, _, children, _) =>
        if f.closing != "" {
          ErasePrints(children);
        }
      case Markup(content, next) =>
        WellFormedAppend(content, Erase(next));
        FlattenAppend(content, Erase(next));
      case Chars(_, _) =>
    }
  }

  /** The printed projection parses, and to the document that `Erase` describes. */
  lemma {:induction false} PrintedReadsBack(f: Forest)
    requires Printable(f)
    ensures Parse(Flatten(f)) == Success(Erase(f))
  {
    ErasePrints(f);
    ParseFlatten(Erase(f));
  }

  // ---------------------------------------------------------------- links keep their order

  lemma {:induction false} HrefsAppend(f: Forest, g: Forest)
    ensures ActiveHrefs(Append(f, g)) == ActiveHrefs(f) + ActiveHrefs(g)
  {
    if f == Empty {
    } else {
      HrefsAppend(f.next, g);
    }
  }

  lemma {:induction false} NoAnchorsNoHrefs(f: Forest)
    requires !Any(f, (tag, _) => tag == "a")
    ensures ActiveHrefs(f) == []
  {
    if f == Empty {
    } else {
      NoAnchorsNoHrefs(f.next);
      if f.Element? {
        NoAnchorsNoHrefs(f.children);
      }
    }
  }

  /** Projectable links: the copies have the addresses, the spans have none. */
  lemma {:induction false} LinksMove(f: Forest)
    requires LinkError(f).None?
    ensures ActiveHrefs(Links(f)) == ActiveHrefs(f)
    ensures ActiveHrefs(Spans(f)) == []
  {
    if f == Empty {
    } else {
      LinksMove(f.next);
      if f.Element? {
        if IsLink(f.tag, f.attrs) {
          NoAnchorsNoHrefs(f.children);
        } else {
          LinksMove(f.children);
          HrefsAppend(Links(f.children), Links(f.next));
        }
      }
    }
  }

  lemma {:induction false} GroupHrefs(links: Forest)
    ensures ActiveHrefs(Group(links)) == ActiveHrefs(links)
  {
    var caption := Group(links).children;
    assert ActiveHrefs(caption) == ActiveHrefs(links);
  }

  lemma {:induction false} OutputHrefsAppend(f: Forest, g: Forest)
    ensures OutputHrefs(Append(f, g)) == OutputHrefs(f) + OutputHrefs(g)
  {
    EraseAppend(f, g);
    HrefsAppend(Erase(f), Erase(g));
  }

  /** The item at the head of a list, on its own. */
  ghost function First(f: Forest): Forest
    requires f != Empty
  {
    match f
    case Chars(text, _) => Chars(text, Empty)
    case Element(tag, attrs, opening, closing, children, _) => Element(tag, attrs, opening, closing, children, Empty)
    case Markup(content, _) => Markup(content, Empty)
  }

  lemma {:induction false} ReplaceFirst(e: Forest, children: Forest)
    requires e.Element? && e.tag != "a"
    ensures OutputHrefs(Element(e.tag, e.attrs, e.opening, e.closing, children, Empty)) == OutputHrefs(children)
  {
    assert OutputHrefs(Empty) == [];
  }

  /** Replacing an element's children and putting markup behind it can move links across, in order. */
  lemma {:induction false} ReplaceHrefs(f: Forest, tag: string, children: Forest, after: Forest)
    requires DirectCount(f, tag) > 0 && tag != "a"
    requires OutputHrefs(children) + OutputHrefs(after) == OutputHrefs(Direct(f, tag).children)
    ensures OutputHrefs(Replace(f, tag, children, after)) == OutputHrefs(f)
  {
    hide OutputHrefs;
    var first := First(f);
    assert f == Append(first, f.next);
    OutputHrefsAppend(first, f.next);
    if f.Element? && f.tag == tag {
      var first' := Element(f.tag, f.attrs, f.opening, f.closing, children, Empty);
      assert Replace(f, tag, children, after) == Append(first', Append(after, f.next));
      OutputHrefsAppend(first', Append(after, f.next));
      OutputHrefsAppend(after, f.next);
      ReplaceFirst(f, children);
      ReplaceFirst(f, f.children);
    } else {
      assert Replace(f, tag, children, after) == Append(first, Replace(f.next, tag, children, after));
      OutputHrefsAppend(first, Replace(f.next, tag, children, after));
      ReplaceHrefs(f.next, tag, children, after);
    }
  }

  lemma {:induction false} EraseAppend(f: Forest, g: Forest)
    ensures Erase(Append(f, g)) == Append(Erase(f), Erase(g))
  {
    if f == Empty {
    } else {
      EraseAppend(f.next, g);
      if f.Markup? {
        AppendAssociates(f.content, Erase(f.next), Erase(g));
      }
    }
  }

  lemma {:induction false} DirectPlain(f: Forest, tag: string)
    requires Plain(f) && DirectCount(f, tag) > 0
    ensures Plain(Direct(f, tag).children)
  {
    if !(f.Element? && f.tag == tag) {
      DirectPlain(f.next, tag);
    }
  }

  lemma {:induction false} SpansPlain(f: Forest)
    requires Plain(f)
    ensures Plain(Spans(f)) && Plain(Links(f))
  {
    if f == Empty {
    } else {
      SpansPlain(f.next);
      if f.Element? {
        SpansPlain(f.children);
        PlainAppend(Links(f.children), Links(f.next));
      }
    }
  }

  lemma {:induction false} PlainAppend(f: Forest, g: Forest)
    requires Plain(f) && Plain(g)
    ensures Plain(Append(f, g))
  {
    if f == Empty {
    } else {
      PlainAppend(f.next, g);
    }
  }

  lemma {:induction false} ReplacePlain(f: Forest, tag: string, children: Forest, after: Forest)
    requires Plain(f) && DirectCount(f, tag) > 0 && Plain(children)
    ensures Plain(after) ==> Plain(Replace(f, tag, children, after))
    ensures after.Markup? && after.next == Empty ==> Fresh(Replace(f, tag, children, after))
  {
    if f.Element? && f.tag == tag {
      ErasePlain(f.next);
      assert after.Markup? && after.next == Empty ==> Append(after, f.next) == Markup(after.content, f.next);
      if Plain(after) {
        PlainAppend(after, f.next);
      }
    } else {
      ReplacePlain(f.next, tag, children, after);
    }
  }

  lemma {:induction false} MoveLinksKeepsHrefs(items: Forest)
    requires Plain(items) && DirectCount(items, "summary") > 0 && LinkError(SummaryContent(items)).None?
    ensures Fresh(MoveLinks(items)) && OutputHrefs(MoveLinks(items)) == OutputHrefs(items)
  {
    DirectPlain(items, "summary");
    var content := SummaryContent(items);
    var group := Markup(Group(Links(content)), Empty);
    ErasePlain(content);
    SpansPlain(content);
    ErasePlain(Spans(content));
    LinksMove(content);
    GroupHrefs(Links(content));
    AppendEmpty(group.content);
    assert Erase(group) == group.content;
    ReplaceHrefs(items, "summary", Spans(content), group);
    ReplacePlain(items, "summary", Spans(content), group);
  }

  lemma {:induction false} RelabelKeepsHrefs(items: Forest)
    requires Plain(items) && DirectCount(items, "summary") > 0 && HasDescriptionLabel(SummaryContent(items))
    ensures Plain(Relabel(items)) && OutputHrefs(Relabel(items)) == OutputHrefs(items)
  {
    DirectPlain(items, "summary");
    RelabelledContent(SummaryContent(items));
    var content := Replace(SummaryContent(items), "span", Chars("Description", Empty), Empty);
    ReplaceHrefs(items, "summary", content, Empty);
    ReplacePlain(items, "summary", content, Empty);
  }

  lemma {:induction false} RelabelledContent(content: Forest)
    requires Plain(content) && HasDescriptionLabel(content)
    ensures var content' := Replace(content, "span", Chars("Description", Empty), Empty);
            && Plain(content') && OutputHrefs(content') == OutputHrefs(content)
            && ActiveHrefs(content') == ActiveHrefs(content)
  {
    var renamed := Chars("Description", Empty);
    ReplaceHrefs(content, "span", renamed, Empty);
    ReplacePlain(content, "span", renamed, Empty);
    ErasePlain(content);
    ErasePlain(Replace(content, "span", renamed, Empty));
  }

  /** Dealing with one toggle leaves the addresses of its items in place. */
  lemma {:induction false} ToggleKeepsHrefs(items: Forest)
    requires Plain(items) && ProjectToggle(items).Success?
    ensures Fresh(ProjectToggle(items).value.0)
    ensures OutputHrefs(ProjectToggle(items).value.0) == OutputHrefs(items)
  {
    ToggleCases(items);
    ErasePlain(items);
    hide ProjectToggle, MoveLinks, Relabel, HasDescriptionLabel, OutputHrefs, LinkError;
    if LinkError(SummaryContent(items)).None? {
      MoveLinksKeepsHrefs(items);
    }
    if HasDescriptionLabel(SummaryContent(items)) {
      RelabelKeepsHrefs(items);
      ErasePlain(Relabel(items));
    }
  }

  /** The projection keeps the sequence of link addresses of the whole document. */
  lemma {:induction false} ProjectKeepsHrefs(f: Forest)
    requires Fresh(f) && Project(f).Success?
    ensures OutputHrefs(Project(f).value.0) == OutputHrefs(f)
    decreases Size(f)
  {
    match f
    case Empty =>
    case Chars(_, next) =>
      ProjectKeepsHrefs(next);
    case Markup(content, next) =>
      ProjectKeepsHrefs(next);
      HrefsAppend(content, Erase(next));
      HrefsAppend(content, Erase(Project(next).value.0));
    case Element(tag, attrs, _, _, children, next) =>
      ErasePlain(children);
      if IsToggle(tag, attrs) {
        ToggleKeepsHrefs(children);
        SizeToggle(children);
        ProjectKeepsHrefs(ProjectToggle(children).value.0);
      } else {
        ProjectKeepsHrefs(children);
      }
      ProjectKeepsHrefs(next);
  }

  // ---------------------------------------------------------------- the output is well formed

  lemma {:induction false} PlainPrintable(f: Forest)
    requires Plain(f) && Printable(f)
    ensures WellFormed(f)
  {
    if f == Empty {
    } else {
      PlainPrintable(f.next);
      if f.Element? && f.closing != "" {
        PlainPrintable(f.children);
      }
    }
  }

  lemma {:induction false} PrintableAppend(f: Forest, g: Forest)
    requires Printable(f) && Printable(g)
    ensures Printable(Append(f, g))
  {
    if f == Empty {
    } else {
      PrintableAppend(f.next, g);
    }
  }

  lemma {:induction false} SpansWellFormed(f: Forest)
    requires WellFormed(f)
    ensures WellFormed(Spans(f)) && WellFormed(Links(f))
  {
    if f == Empty {
    } else {
      SpansWellFormed(f.next);
      if f.Element? {
        if f.closing != "" {
          SpansWellFormed(f.children);
        }
        WellFormedAppend(Links(f.children), Links(f.next));
      }
    }
  }

  lemma {:induction false} DirectPrintable(f: Forest, tag: string)
    requires Printable(f) && DirectCount(f, tag) > 0
    ensures Printable(Direct(f, tag).children)
    ensures Direct(f, tag).children != Empty ==> Direct(f, tag).closing != ""
  {
    if !(f.Element? && f.tag == tag) {
      DirectPrintable(f.next, tag);
    }
  }

  lemma {:induction false} ReplacePrintable(f: Forest, tag: string, children: Forest, after: Forest)
    requires Printable(f) && DirectCount(f, tag) > 0 && Direct(f, tag).closing != ""
    requires Printable(children) && Printable(after)
    ensures Printable(Replace(f, tag, children, after))
  {
    if f.Element? && f.tag == tag {
      PrintableAppend(after, f.next);
    } else {
      ReplacePrintable(f.next, tag, children, after);
    }
  }

  lemma {:induction false} MoveLinksPrintable(items: Forest)
    requires Plain(items) && Printable(items) && DirectCount(items, "summary") > 0
    requires SummaryContent(items) != Empty
    ensures Printable(MoveLinks(items))
  {
    DirectPlain(items, "summary");
    DirectPrintable(items, "summary");
    var content := SummaryContent(items);
    PlainPrintable(content);
    SpansWellFormed(content);
    WellFormedIsPlain(Spans(content));
    var group := Group(Links(content));
    assert WellFormed(group.children);
    ReplacePrintable(items, "summary", Spans(content), Markup(group, Empty));
  }

  lemma {:induction false} RelabelPrintable(items: Forest)
    requires Printable(items) && DirectCount(items, "summary") > 0 && HasDescriptionLabel(SummaryContent(items))
    ensures Printable(Relabel(items))
  {
    DirectPrintable(items, "summary");
    var content := SummaryContent(items);
    DirectPrintable(content, "span");
    ReplacePrintable(content, "span", Chars("Description", Empty), Empty);
    ReplacePrintable(items, "summary", Replace(content, "span", Chars("Description", Empty), Empty), Empty);
  }

  lemma {:induction false} TogglePrintable(items: Forest)
    requires Plain(items) && Printable(items) && ProjectToggle(items).Success?
    ensures Printable(ProjectToggle(items).value.0)
  {
    ToggleCases(items);
    hide ProjectToggle, MoveLinks, Relabel, HasDescriptionLabel, LinkError, Printable, Plain;
    if ActiveHrefs(SummaryContent(items)) != [] {
      MoveLinksPrintable(items);
    } else if HasDescriptionLabel(SummaryContent(items)) {
      RelabelPrintable(items);
    }
  }

  lemma {:induction false} ProjectPrintable(f: Forest)
    requires Fresh(f) && Printable(f) && Project(f).Success?
    ensures Printable(Project(f).value.0)
    decreases Size(f)
  {
    match f
    case Empty =>
    case Chars(_, next) => ProjectPrintable(next);
    case Markup(_, next) => ProjectPrintable(next);
    case Element(tag, attrs, _, closing, children, next) =>
      ErasePlain(children);
      if closing == "" {
        EmptyIsNoToggle();
      } else if IsToggle(tag, attrs) {
        ToggleKeepsHrefs(children);
        TogglePrintable(children);
        SizeToggle(children);
        ProjectPrintable(ProjectToggle(children).value.0);
      } else {
        ProjectPrintable(children);
      }
      ProjectPrintable(next);
  }

  lemma {:induction false} EmptyIsNoToggle()
    ensures ProjectToggle(Empty) == Failure(SummaryCount)
    ensures Project(Empty) == Success((Empty, NONE_COUNTED))
  {
  }

  // ---------------------------------------------------------------- links left inside summaries

  /** Some summary has an active link inside. */
  predicate HasSummaryLink(f: Forest)
  {
    match f
    case Empty => false
    case Element(tag, _, _, _, children, next) =>
      || (tag == "summary" && ActiveHrefs(children) != [])
      || HasSummaryLink(children)
      || HasSummaryLink(next)
    case _ => HasSummaryLink(f.next)
  }

  /**
   Some summary that is not a toggle's own, and not inside one, has an active link. `inToggle`
   says whether the items are those of a toggle.
   */
  predicate Escapes(f: Forest, inToggle: bool)
  {
    match f
    case Empty => false
    case Element(tag, attrs, _, _, children, next) =>
      || (!(inToggle && tag == "summary")
          && ((tag == "summary" && ActiveHrefs(children) != []) || Escapes(children, IsToggle(tag, attrs))))
      || Escapes(next, inToggle)
    case _ => Escapes(f.next, inToggle)
  }

  lemma {:induction false} NoHrefsNoSummaryLink(f: Forest)
    requires ActiveHrefs(f) == []
    ensures !HasSummaryLink(f)
  {
    if f == Empty {
    } else {
      NoHrefsNoSummaryLink(f.next);
      if f.Element? {
        NoHrefsNoSummaryLink(f.children);
      }
    }
  }

  lemma {:induction false} SummaryLinkAppend(f: Forest, g: Forest)
    ensures HasSummaryLink(Append(f, g)) <==> HasSummaryLink(f) || HasSummaryLink(g)
  {
    if f == Empty {
    } else {
      SummaryLinkAppend(f.next, g);
    }
  }

  lemma {:induction false} LinksQuiet(f: Forest)
    requires LinkError(f).None?
    ensures !HasSummaryLink(Links(f))
  {
    if f == Empty {
    } else {
      LinksQuiet(f.next);
      if f.Element? {
        if IsLink(f.tag, f.attrs) {
          NoAnchorsNoHrefs(f.children);
          NoHrefsNoSummaryLink(f.children);
        } else {
          LinksQuiet(f.children);
          SummaryLinkAppend(Links(f.children), Links(f.next));
        }
      }
    }
  }

  /** Inserted markup has no link in a summary, and a toggle's own summaries have no links at all. */
  ghost predicate Settled(f: Forest, inToggle: bool)
  {
    match f
    case Empty => true
    case Chars(_, next) => Settled(next, inToggle)
    case Markup(content, next) => !HasSummaryLink(content) && Settled(next, inToggle)
    case Element(tag, _, _, _, children, next) =>
      && Plain(children)
      && (inToggle && tag == "summary" ==> ActiveHrefs(children) == [])
      && Settled(next, inToggle)
  }

  lemma {:induction false} PlainSettled(f: Forest, inToggle: bool)
    requires Plain(f) && (inToggle ==> DirectCount(f, "summary") == 0)
    ensures Settled(f, inToggle)
  {
    if f == Empty {
    } else {
      PlainSettled(f.next, inToggle);
    }
  }

  lemma {:induction false} ReplaceSettles(f: Forest, children: Forest, after: Forest)
    requires Plain(f) && DirectCount(f, "summary") == 1
    requires Plain(children) && ActiveHrefs(children) == []
    requires after == Empty || (after.Markup? && after.next == Empty && !HasSummaryLink(after.content))
    ensures Settled(Replace(f, "summary", children, after), true)
    ensures Escapes(Replace(f, "summary", children, after), true) <==> Escapes(f, true)
  {
    if f.Element? && f.tag == "summary" {
      PlainSettled(f.next, true);
      assert Append(after, f.next) == if after == Empty then f.next else Markup(after.content, f.next);
    } else {
      ReplaceSettles(f.next, children, after);
    }
  }

  lemma {:induction false} SummarySettled(f: Forest)
    requires Plain(f) && DirectCount(f, "summary") == 1 && ActiveHrefs(Direct(f, "summary").children) == []
    ensures Settled(f, true)
  {
    if f.Element? && f.tag == "summary" {
      PlainSettled(f.next, true);
    } else {
      SummarySettled(f.next);
    }
  }

  lemma {:induction false} MoveLinksSettles(items: Forest)
    requires Plain(items) && DirectCount(items, "summary") == 1 && LinkError(SummaryContent(items)).None?
    ensures Settled(MoveLinks(items), true)
    ensures Escapes(MoveLinks(items), true) <==> Escapes(items, true)
  {
    DirectPlain(items, "summary");
    var content := SummaryContent(items);
    SpansPlain(content);
    LinksMove(content);
    LinksQuiet(content);
    var group := Group(Links(content));
    assert !HasSummaryLink(group.children);
    ReplaceSettles(items, Spans(content), Markup(group, Empty));
  }

  lemma {:induction false} RelabelSettles(items: Forest)
    requires Plain(items) && DirectCount(items, "summary") == 1 && HasDescriptionLabel(SummaryContent(items))
    requires ActiveHrefs(SummaryContent(items)) == []
    ensures Settled(Relabel(items), true)
    ensures Escapes(Relabel(items), true) <==> Escapes(items, true)
  {
    DirectPlain(items, "summary");
    RelabelledContent(SummaryContent(items));
    ReplaceSettles(items, Replace(SummaryContent(items), "span", Chars("Description", Empty), Empty), Empty);
  }

  lemma {:induction false} ToggleSettles(items: Forest)
    requires Plain(items) && ProjectToggle(items).Success?
    ensures Settled(ProjectToggle(items).value.0, true)
    ensures Escapes(ProjectToggle(items).value.0, true) <==> Escapes(items, true)
  {
    ToggleCases(items);
    hide ProjectToggle, MoveLinks, Relabel, HasDescriptionLabel, LinkError, Settled, Escapes;
    if ActiveHrefs(SummaryContent(items)) != [] {
      MoveLinksSettles(items);
    } else {
      SummarySettled(items);
      if HasDescriptionLabel(SummaryContent(items)) {
        RelabelSettles(items);
      }
    }
  }

  /** A link stays inside a summary exactly when a summary other than a toggle's own had it. */
  lemma {:induction false} ProjectSummaryLinks(f: Forest, inToggle: bool)
    requires Fresh(f) && Settled(f, inToggle) && Project(f).Success?
    ensures HasSummaryLink(Erase(Project(f).value.0)) <==> Escapes(f, inToggle)
    decreases Size(f)
  {
    match f
    case Empty =>
    case Chars(_, next) => ProjectSummaryLinks(next, inToggle);
    case Markup(content, next) =>
      ProjectSummaryLinks(next, inToggle);
      SummaryLinkAppend(content, Erase(Project(next).value.0));
    case Element(tag, attrs, _, _, children, next) =>
      ErasePlain(children);
      ProjectSummaryLinks(next, inToggle);
      if IsToggle(tag, attrs) {
        ToggleKeepsHrefs(children);
        ToggleSettles(children);
        SizeToggle(children);
        ProjectSummaryLinks(ProjectToggle(children).value.0, true);
      } else {
        ProjectKeepsHrefs(children);
        if inToggle && tag == "summary" {
          NoHrefsNoSummaryLink(Erase(Project(children).value.0));
        } else {
          PlainSettled(children, false);
          ProjectSummaryLinks(children, false);
        }
      }
  }

  // ---------------------------------------------------------------- markers are counted right

  /** A span that stands for a projected link. */
  predicate IsMarked(tag: string, attrs: seq<Attribute>)
  {
    tag == "span" && ValueOf(attrs, MARKER).Some?
  }

  predicate IsGroupElement(attrs: seq<Attribute>)
  {
    HasClass(attrs, GROUP_CLASS)
  }

  /** The number of projected spans, in elements and in inserted markup. */
  function MarkedCount(f: Forest): nat
  {
    match f
    case Empty => 0
    case Chars(_, next) => MarkedCount(next)
    case Markup(content, next) => MarkedCount(content) + MarkedCount(next)
    case Element(tag, attrs, _, _, children, next) =>
      (if IsMarked(tag, attrs) then 1 else 0) + MarkedCount(children) + MarkedCount(next)
  }

  /** The number of link groups, in elements and in inserted markup. */
  function GroupCount(f: Forest): nat
  {
    match f
    case Empty => 0
    case Chars(_, next) => GroupCount(next)
    case Markup(content, next) => GroupCount(content) + GroupCount(next)
    case Element(tag, attrs, _, _, children, next) =>
      (if IsGroupElement(attrs) then 1 else 0) + GroupCount(children) + GroupCount(next)
  }

  lemma {:induction false} CountAppend(f: Forest, g: Forest)
    ensures MarkedCount(Append(f, g)) == MarkedCount(f) + MarkedCount(g)
    ensures GroupCount(Append(f, g)) == GroupCount(f) + GroupCount(g)
  {
    if f == Empty {
    } else {
      CountAppend(f.next, g);
    }
  }

  lemma {:induction false} CountErase(f: Forest)
    ensures MarkedCount(Erase(f)) == MarkedCount(f) && GroupCount(Erase(f)) == GroupCount(f)
  {
    if f == Empty {
    } else {
      CountErase(f.next);
      if f.Element? {
        CountErase(f.children);
      } else if f.Markup? {
        CountAppend(f.content, Erase(f.next));
      }
    }
  }

  ghost predicate Unmarked(f: Forest)
  {
    MarkedCount(f) == 0 && GroupCount(f) == 0
  }

  /** No element has both projected spans and active links inside. */
  ghost predicate Tidy(f: Forest)
  {
    match f
    case Empty => true
    case Element(_, _, _, _, children, next) => (Unmarked(children) || ActiveHrefs(children) == []) && Tidy(next)
    case _ => Tidy(f.next)
  }

  lemma {:induction false} SimpleIsTidy(f: Forest)
    requires Unmarked(f) || ActiveHrefs(f) == []
    ensures Tidy(f)
  {
    if f == Empty {
    } else {
      SimpleIsTidy(f.next);
    }
  }

  /** The new name carries the address; every other attribute reads as before. */
  lemma {:induction false} RenamedValues(attrs: seq<Attribute>, name: string)
    requires !Has(attrs, MARKER)
    ensures ValueOf(Renamed(attrs), MARKER) == ValueOf(attrs, "href")
    ensures name != "href" && name != MARKER ==> ValueOf(Renamed(attrs), name) == ValueOf(attrs, name)
  {
    if attrs == [] {
    } else {
      assert !Has(attrs[1..], MARKER) by {
        assert forall i :: 0 <= i < |attrs[1..]| ==> attrs[1..][i] == attrs[i + 1];
      }
      assert attrs[0].0 != MARKER;
      RenamedValues(attrs[1..], name);
    }
  }

  lemma {:induction false} LinkHasNoMarker(attrs: seq<Attribute>, children: Forest)
    requires AnchorError(attrs, children).None?
    ensures !Has(attrs, MARKER)
  {
    assert MARKER !in LINK_ATTRIBUTES;
  }

  lemma {:induction false} ProjectedCounts(f: Forest)
    requires LinkError(f).None? && Unmarked(f)
    ensures MarkedCount(Spans(f)) == |ActiveHrefs(f)| && GroupCount(Spans(f)) == 0
    ensures Unmarked(Links(f))
  {
    if f == Empty {
    } else {
      ProjectedCounts(f.next);
      if f.Element? {
        if IsLink(f.tag, f.attrs) {
          NoAnchorsNoHrefs(f.children);
          LinkHasNoMarker(f.attrs, f.children);
          RenamedValues(f.attrs, "class");
        } else {
          ProjectedCounts(f.children);
          CountAppend(Links(f.children), Links(f.next));
        }
      }
    }
  }

  lemma {:induction false} SplitWord(s: string, word: string)
    requires s + word != "" && forall i :: 0 <= i < |s| ==> !IsSpace(s[i])
    ensures Split(s, word) == [word + s]
  {
    if s == "" {
      assert word + s == word;
    } else {
      SplitWord(s[1..], word + [s[0]]);
      assert word + [s[0]] + s[1..] == word + s;
    }
  }

  lemma {:induction false} OneWordClass(word: string, name: string)
    requires word != "" && forall i :: 0 <= i < |word| ==> !IsSpace(word[i])
    ensures HasClass([("class", Some(word))], name) <==> name == word
    ensures ValueOf([("class", Some(word))], MARKER).None?
  {
    SplitWord(word, "");
    assert "" + word == word && ValueOf([("class", Some(word))], "class") == Some(word);
  }

  lemma {:induction false} GroupClasses()
    ensures IsGroupElement([("class", Some(GROUP_CLASS))]) && !IsGroupElement([("class", Some(LABEL_CLASS))])
    ensures ValueOf([("class", Some(LABEL_CLASS))], MARKER).None?
  {
    OneWordClass(GROUP_CLASS, GROUP_CLASS);
    OneWordClass(LABEL_CLASS, GROUP_CLASS);
    assert |LABEL_CLASS| != |GROUP_CLASS|;
  }

  lemma {:induction false} GroupCounts(links: Forest)
    requires Unmarked(links)
    ensures MarkedCount(Group(links)) == 0 && GroupCount(Group(links)) == 1
  {
    GroupClasses();
    hide ValueOf, IsGroupElement;
    var caption := Group(links).children;
    assert MarkedCount(caption.children) == 0 && GroupCount(caption.children) == 0;
    assert MarkedCount(caption) == 0 && GroupCount(caption) == 0;
  }

  lemma {:induction false} ReplaceCounts(f: Forest, tag: string, children: Forest, after: Forest)
    requires DirectCount(f, tag) > 0
    ensures MarkedCount(Replace(f, tag, children, after)) + MarkedCount(Direct(f, tag).children)
         == MarkedCount(f) + MarkedCount(children) + MarkedCount(after)
    ensures GroupCount(Replace(f, tag, children, after)) + GroupCount(Direct(f, tag).children)
         == GroupCount(f) + GroupCount(children) + GroupCount(after)
  {
    if f.Element? && f.tag == tag {
      CountAppend(after, f.next);
    } else {
      ReplaceCounts(f.next, tag, children, after);
    }
  }

  lemma {:induction false} DirectInside(f: Forest, tag: string)
    requires DirectCount(f, tag) > 0
    ensures MarkedCount(Direct(f, tag).children) <= MarkedCount(f)
    ensures GroupCount(Direct(f, tag).children) <= GroupCount(f)
    ensures ActiveHrefs(f) == [] ==> ActiveHrefs(Direct(f, tag).children) == []
  {
    if !(f.Element? && f.tag == tag) {
      DirectInside(f.next, tag);
    }
  }

  lemma {:induction false} ReplaceTidy(f: Forest, children: Forest, after: Forest)
    requires Tidy(f) && DirectCount(f, "summary") > 0 && ActiveHrefs(children) == []
    requires after == Empty || (after.Markup? && after.next == Empty)
    ensures Tidy(Replace(f, "summary", children, after))
  {
    if f.Element? && f.tag == "summary" {
      assert Append(after, f.next) == if after == Empty then f.next else Markup(after.content, f.next);
    } else {
      ReplaceTidy(f.next, children, after);
    }
  }

  lemma {:induction false} MoveLinksCounts(items: Forest)
    requires DirectCount(items, "summary") > 0 && Unmarked(items) && LinkError(SummaryContent(items)).None?
    ensures Tidy(MoveLinks(items))
    ensures MarkedCount(MoveLinks(items)) == |ActiveHrefs(SummaryContent(items))|
    ensures GroupCount(MoveLinks(items)) == 1
  {
    var content := SummaryContent(items);
    var group := Group(Links(content));
    SimpleIsTidy(items);
    DirectInside(items, "summary");
    ProjectedCounts(content);
    GroupCounts(Links(content));
    LinksMove(content);
    ReplaceCounts(items, "summary", Spans(content), Markup(group, Empty));
    assert MarkedCount(Markup(group, Empty)) == 0 && GroupCount(Markup(group, Empty)) == 1;
    ReplaceTidy(items, Spans(content), Markup(group, Empty));
  }

  lemma {:induction false} RelabelCounts(items: Forest)
    requires Plain(items) && Tidy(items) && DirectCount(items, "summary") > 0
    requires HasDescriptionLabel(SummaryContent(items)) && ActiveHrefs(SummaryContent(items)) == []
    ensures Tidy(Relabel(items))
    ensures MarkedCount(Relabel(items)) == MarkedCount(items) && GroupCount(Relabel(items)) == GroupCount(items)
  {
    var content, renamed := SummaryContent(items), Chars("Description", Empty);
    var content' := Replace(content, "span", renamed, Empty);
    DirectPlain(items, "summary");
    RelabelledContent(content);
    ReplaceCounts(content, "span", renamed, Empty);
    ReplaceCounts(items, "summary", content', Empty);
    ReplaceTidy(items, content', Empty);
  }

  lemma {:induction false} ToggleCounts(items: Forest)
    requires Plain(items) && ProjectToggle(items).Success?
    requires Unmarked(items) || ActiveHrefs(items) == []
    ensures var (items', stats) := ProjectToggle(items).value;
            && Tidy(items')
            && MarkedCount(items') == MarkedCount(items) + stats.links
            && GroupCount(items') == GroupCount(items) + stats.sections
  {
    ToggleCases(items);
    SimpleIsTidy(items);
    DirectInside(items, "summary");
    hide ProjectToggle, MoveLinks, Relabel, HasDescriptionLabel, LinkError, Tidy, Plain;
    if ActiveHrefs(SummaryContent(items)) != [] {
      MoveLinksCounts(items);
    } else if HasDescriptionLabel(SummaryContent(items)) {
      RelabelCounts(items);
    }
  }

  /** The projection adds exactly the spans and groups it counts. */
  lemma {:induction false} ProjectCounts(f: Forest)
    requires Fresh(f) && Tidy(f) && Project(f).Success?
    ensures var (f', stats) := Project(f).value;
            && MarkedCount(f') == MarkedCount(f) + stats.links
            && GroupCount(f') == GroupCount(f) + stats.sections
    decreases Size(f)
  {
    match f
    case Empty =>
    case Chars(_, next) => ProjectCounts(next);
    case Markup(_, next) => ProjectCounts(next);
    case Element(tag, attrs, _, _, children, next) =>
      ErasePlain(children);
      ProjectCounts(next);
      if IsToggle(tag, attrs) {
        ToggleKeepsHrefs(children);
        ToggleCounts(children);
        SizeToggle(children);
        ProjectCounts(ProjectToggle(children).value.0);
      } else {
        SimpleIsTidy(children);
        ProjectCounts(children);
      }
  }
}
