/** Which addresses the spans of a projection carry: those of the links that it moved, in order. */
module MovedLinks {
  import opened Wrappers
  import opened HtmlDocument
  import opened LinkProjection

  /** The addresses that marked spans carry, in document order. */
  function MarkedHrefs(f: Forest): seq<string>
  {
    match f
    case Empty => []
    case Chars(_, next) => MarkedHrefs(next)
    case Markup(content, next) => MarkedHrefs(content) + MarkedHrefs(next)
    case Element(tag, attrs, _, _, children, next) =>
      (if IsMarked(tag, attrs) then [ValueOf(attrs, MARKER).value] else []) + MarkedHrefs(children) + MarkedHrefs(next)
  }

  /** The addresses of the active links in the toggles' own summaries, in document order. */
  function SummaryHrefs(f: Forest, inToggle: bool): seq<string>
  {
    match f
    case Empty => []
    case Element(tag, attrs, _, _, children, next) =>
      (if inToggle && tag == "summary" then ActiveHrefs(children) else SummaryHrefs(children, IsToggle(tag, attrs)))
      + SummaryHrefs(next, inToggle)
    case _ => SummaryHrefs(f.next, inToggle)
  }

  /** The marked addresses, with those of links that are still to be moved where their spans will be. */
  ghost function Marks(f: Forest, inToggle: bool): seq<string>
  {
    match f
    case Empty => []
    case Chars(_, next) => Marks(next, inToggle)
    case Markup(content, next) => MarkedHrefs(content) + Marks(next, inToggle)
    case Element(tag, attrs, _, _, children, next) =>
      (if IsMarked(tag, attrs) then [ValueOf(attrs, MARKER).value] else [])
      + (if inToggle && tag == "summary" && ActiveHrefs(children) != [] then ActiveHrefs(children)
         else Marks(children, IsToggle(tag, attrs)))
      + Marks(next, inToggle)
  }

  lemma {:induction false} MarkedAppend(f: Forest, g: Forest)
    ensures MarkedHrefs(Append(f, g)) == MarkedHrefs(f) + MarkedHrefs(g)
  {
    hide IsMarked, IsLink, IsToggle, ValueOf;
    if f == Empty {
    } else {
      MarkedAppend(f.next, g);
    }
  }

  lemma {:induction false} MarkedErase(f: Forest)
    ensures MarkedHrefs(Erase(f)) == MarkedHrefs(f)
  {
    hide IsMarked, IsLink, IsToggle, ValueOf;
    if f == Empty {
    } else {
      MarkedErase(f.next);
      match f
      case Element(_, _, _, _, children, _) => MarkedErase(children);
      case Markup(content, next) => MarkedAppend(content, Erase(next));
      case Chars(_, _) =>
    }
  }

  /** As many as are counted. */
  lemma {:induction false} MarkedIsCounted(f: Forest)
    ensures |MarkedHrefs(f)| == MarkedCount(f)
  {
    hide IsMarked, IsLink, IsToggle, ValueOf;
    if f == Empty {
    } else {
      MarkedIsCounted(f.next);
      match f
      case Element(_, _, _, _, children, _) => MarkedIsCounted(children);
      case Markup(content, next) => MarkedIsCounted(content);
      case Chars(_, _) =>
    }
  }

  lemma {:induction false} NoHrefsInSummaries(f: Forest, inToggle: bool)
    requires ActiveHrefs(f) == []
    ensures SummaryHrefs(f, inToggle) == []
  {
    hide IsLink, IsToggle, ValueOf;
    if f == Empty {
    } else {
      NoHrefsInSummaries(f.next, inToggle);
      if f.Element? {
        NoHrefsInSummaries(f.children, IsToggle(f.tag, f.attrs));
      }
    }
  }

  lemma {:induction false} NothingMarked(f: Forest)
    requires f.Element? && MarkedHrefs(f) == []
    ensures !IsMarked(f.tag, f.attrs) && MarkedHrefs(f.children) == [] == MarkedHrefs(f.next)
  {
    hide IsMarked, ValueOf;
  }

  lemma {:induction false} MarksOfUnmarked(f: Forest, inToggle: bool)
    requires f.Element? && !IsMarked(f.tag, f.attrs)
    ensures Marks(f, inToggle)
         == (if inToggle && f.tag == "summary" && ActiveHrefs(f.children) != [] then ActiveHrefs(f.children)
             else Marks(f.children, IsToggle(f.tag, f.attrs)))
            + Marks(f.next, inToggle)
  {
    hide IsMarked, IsToggle, ActiveHrefs, MarkedHrefs;
  }

  /** Without marks, the links of the own summaries are what is still to be moved. */
  lemma {:induction false} UnmarkedMarks(f: Forest, inToggle: bool)
    requires MarkedHrefs(f) == []
    ensures Marks(f, inToggle) == SummaryHrefs(f, inToggle)
  {
    hide IsMarked, IsLink, IsToggle, ValueOf, ActiveHrefs;
    if f == Empty {
    } else if f.Element? {
      NothingMarked(f);
      MarksOfUnmarked(f, inToggle);
      hide MarkedHrefs, Marks;
      UnmarkedMarks(f.next, inToggle);
      UnmarkedMarks(f.children, IsToggle(f.tag, f.attrs));
      if ActiveHrefs(f.children) == [] {
        NoHrefsInSummaries(f.children, IsToggle(f.tag, f.attrs));
      }
    } else {
      UnmarkedMarks(f.next, inToggle);
    }
  }

  /** Without links, the marks are all there is. */
  lemma {:induction false} UnlinkedMarks(f: Forest, inToggle: bool)
    requires ActiveHrefs(f) == []
    ensures Marks(f, inToggle) == MarkedHrefs(f)
  {
    hide IsMarked, IsLink, IsToggle, ValueOf;
    if f == Empty {
    } else {
      UnlinkedMarks(f.next, inToggle);
      if f.Element? {
        UnlinkedMarks(f.children, IsToggle(f.tag, f.attrs));
      }
    }
  }

  /** The spans carry the links' addresses, and the copies of the links carry no marks. */
  lemma {:induction false} SpansMark(f: Forest)
    requires LinkError(f).None? && MarkedHrefs(f) == []
    ensures MarkedHrefs(Spans(f)) == ActiveHrefs(f) && MarkedHrefs(Links(f)) == []
  {
    if f == Empty {
    } else {
      SpansMark(f.next);
      if f.Element? {
        if IsLink(f.tag, f.attrs) {
          NoAnchorsNoHrefs(f.children);
          LinkHasNoMarker(f.attrs, f.children);
          RenamedValues(f.attrs, "class");
          hide ValueOf, Renamed, LinkError;
        } else {
          SpansMark(f.children);
          MarkedAppend(Links(f.children), Links(f.next));
        }
      }
    }
  }

  lemma {:induction false} GroupMarks(links: Forest)
    requires MarkedHrefs(links) == []
    ensures MarkedHrefs(Group(links)) == []
  {
    GroupClasses();
    hide ValueOf, IsGroupElement;
    var caption := Group(links).children;
    assert MarkedHrefs(caption.children) == [];
    assert MarkedHrefs(caption) == [];
  }

  lemma {:induction false} DirectMarks(f: Forest, tag: string)
    requires DirectCount(f, tag) > 0 && MarkedHrefs(f) == []
    ensures MarkedHrefs(Direct(f, tag).children) == []
  {
    if !(f.Element? && f.tag == tag) {
      DirectMarks(f.next, tag);
    }
  }

  /** Replacing an own summary's content keeps the marks if the new content has those of the old. */
  lemma {:induction false} ReplaceMarks(f: Forest, children: Forest, after: Forest)
    requires DirectCount(f, "summary") == 1 && ActiveHrefs(children) == []
    requires after == Empty || (after.Markup? && after.next == Empty && MarkedHrefs(after.content) == [])
    requires var was := Direct(f, "summary").children;
             MarkedHrefs(children) == if ActiveHrefs(was) != [] then ActiveHrefs(was) else MarkedHrefs(was)
    ensures Marks(Replace(f, "summary", children, after), true) == Marks(f, true)
  {
    if f.Element? && f.tag == "summary" {
      UnlinkedMarks(children, IsToggle(f.tag, f.attrs));
      if ActiveHrefs(f.children) == [] {
        UnlinkedMarks(f.children, IsToggle(f.tag, f.attrs));
      }
      AfterMarks(after, f.next);
      hide IsMarked, ValueOf, IsToggle, ActiveHrefs, MarkedHrefs, Append;
    } else {
      ReplaceMarks(f.next, children, after);
      hide IsMarked, ValueOf, IsToggle, ActiveHrefs, MarkedHrefs;
    }
  }

  lemma {:induction false} AfterMarks(after: Forest, next: Forest)
    requires after == Empty || (after.Markup? && after.next == Empty && MarkedHrefs(after.content) == [])
    ensures Marks(Append(after, next), true) == Marks(next, true)
  {
    assert Append(after, next) == if after == Empty then next else Markup(after.content, next);
  }

  /** Dealing with a toggle puts each address where it was to be. */
  lemma {:induction false} ToggleMarks(items: Forest)
    requires Plain(items) && ProjectToggle(items).Success?
    requires MarkedHrefs(items) == [] || ActiveHrefs(items) == []
    ensures Marks(ProjectToggle(items).value.0, true) == Marks(items, true)
  {
    ToggleCases(items);
    DirectInside(items, "summary");
    hide ProjectToggle, LinkError, Marks;
    var content := SummaryContent(items);
    if ActiveHrefs(content) != [] {
      DirectMarks(items, "summary");
      SpansMark(content);
      LinksMove(content);
      GroupMarks(Links(content));
      ReplaceMarks(items, Spans(content), Markup(Group(Links(content)), Empty));
    } else if HasDescriptionLabel(content) {
      DirectPlain(items, "summary");
      RelabelledContent(content);
      RelabelledMarks(content);
      ReplaceMarks(items, Replace(content, "span", Chars("Description", Empty), Empty), Empty);
    }
  }

  lemma {:induction false} RelabelledMarks(content: Forest)
    requires HasDescriptionLabel(content)
    ensures MarkedHrefs(Replace(content, "span", Chars("Description", Empty), Empty)) == MarkedHrefs(content)
  {
    if content.Element? && content.tag == "span" {
      assert MarkedHrefs(content.children) == [] == MarkedHrefs(Chars("Description", Empty));
    } else {
      RelabelledMarks(content.next);
    }
  }

  lemma {:induction false} ProjectMarks(f: Forest, inToggle: bool)
    requires Fresh(f) && Tidy(f) && Settled(f, inToggle) && Project(f).Success?
    ensures MarkedHrefs(Project(f).value.0) == Marks(f, inToggle)
    decreases Size(f)
  {
    match f
    case Empty =>
    case Chars(_, next) => ProjectMarks(next, inToggle);
    case Markup(_, next) => ProjectMarks(next, inToggle);
    case Element(tag, attrs, _, _, children, next) =>
      ErasePlain(children);
      ProjectMarks(next, inToggle);
      MarkedIsCounted(children);
      if IsToggle(tag, attrs) {
        ToggleKeepsHrefs(children);
        ToggleCounts(children);
        ToggleSettles(children);
        ToggleMarks(children);
        SizeToggle(children);
        ProjectMarks(ProjectToggle(children).value.0, true);
      } else {
        SimpleIsTidy(children);
        PlainSettled(children, false);
        ProjectMarks(children, false);
      }
      hide ProjectToggle, Settled, Tidy, Plain;
  }

  /**
   The spans of a projected document carry, in document order, exactly the addresses of the links
   that were in the toggles' own summaries.
   */
  lemma {:induction false} SpansCarryHrefs(root: Forest)
    requires Plain(root) && Unmarked(root) && Project(root).Success?
    ensures MarkedHrefs(Erase(Project(root).value.0)) == SummaryHrefs(root, false)
    ensures |SummaryHrefs(root, false)| == Project(root).value.1.links
  {
    var tree := Project(root).value.0;
    ErasePlain(root);
    SimpleIsTidy(root);
    PlainSettled(root, false);
    MarkedIsCounted(root);
    MarkedIsCounted(tree);
    hide Project, Settled, Tidy, Plain;
    ProjectMarks(root, false);
    UnmarkedMarks(root, false);
    MarkedErase(tree);
    ProjectCounts(root);
  }
}
