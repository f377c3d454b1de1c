/**
 The projection of a whole document with the checks on its input and on its output, and when
 each of them fails.
 */
module ProjectionChecks {
  import opened Wrappers
  import opened HtmlDocument
  import opened LinkProjection
  import opened MovedLinks
  import opened StartTags

  // ---------------------------------------------------------------- the whole projection

  function ScriptMarkup(f: Forest): seq<string>
  {
    match f
    case Empty => []
    case Element(tag, attrs, opening, closing, children, next) =>
      (if tag == "script" then [opening + Render(children) + closing] else [])
      + ScriptMarkup(children) + ScriptMarkup(next)
    case _ => ScriptMarkup(f.next)
  }

  /** What a document must not contain for its attributes and markers to be read at all. */
  function InputError(f: Forest): Option<Error>
  {
    if Any(f, (_, attrs) => Repeats(attrs, "id")) then Some(RepeatedAttribute("id"))
    else if Any(f, (tag, attrs) => tag == "a" && Repeats(attrs, "href")) then Some(RepeatedAttribute("href"))
    else if Any(f, (_, attrs) => Has(attrs, MARKER)) then Some(ExistingMarker)
    else ClassError(f)
  }

  /** The first element whose classes cannot be read, or are those of link groups. */
  function ClassError(f: Forest): Option<Error>
  {
    match f
    case Empty => None
    case Element(_, attrs, _, _, children, next) =>
      if Repeats(attrs, "class") then Some(RepeatedAttribute("class"))
      else if HasClass(attrs, GROUP_CLASS) || HasClass(attrs, LABEL_CLASS) then Some(ExistingGroup)
      else
        var error := ClassError(children);
        if error.Some? then error else ClassError(next)
    case _ => ClassError(f.next)
  }

  /** Projects a document, prints it, reads the print back and checks what it reads. */
  function ProjectDocument(root: Forest): Result<(string, Stats), Error>
  {
    if InputError(root).Some? then Failure(InputError(root).value)
    else
      var projected := Project(root);
      if projected.Failure? then Failure(projected.error)
      else
        var (tree, stats) := projected.value;
        var output := Parse(Flatten(tree));
        if output.Failure? then Failure(Malformed(output.error))
        else if ActiveHrefs(output.value) != ActiveHrefs(root) then Failure(HrefOrderChanged)
        else if ScriptMarkup(output.value) != ScriptMarkup(root) then Failure(ScriptChanged)
        else if HasSummaryLink(output.value) then Failure(LinkSurvived)
        else if MarkedCount(output.value) != stats.links || GroupCount(output.value) != stats.sections then
          Failure(MarkerDrift)
        else Success((Render(tree), stats))
  }

  // ---------------------------------------------------------------- scripts

  /** Text and nothing else. */
  predicate IsText(f: Forest)
  {
    f == Empty || (f.Chars? && IsText(f.next))
  }

  /** Scripts hold text only, as an HTML tokenizer reads them. */
  predicate ScriptsAreText(f: Forest)
  {
    match f
    case Empty => true
    case Element(tag, _, _, _, children, next) =>
      (tag == "script" ==> IsText(children)) && ScriptsAreText(children) && ScriptsAreText(next)
    case _ => ScriptsAreText(f.next)
  }

  /** How many scripts are inside active links. */
  function LinkScripts(f: Forest): nat
  {
    match f
    case Empty => 0
    case Element(tag, attrs, _, _, children, next) =>
      (if IsLink(tag, attrs) then |ScriptMarkup(children)| else LinkScripts(children)) + LinkScripts(next)
    case _ => LinkScripts(f.next)
  }

  /** Some link in a toggle's own summary contains a script, which copying the link would double. */
  predicate DoublesScript(f: Forest)
  {
    match f
    case Empty => false
    case Element(tag, attrs, _, _, children, next) =>
      || (IsToggle(tag, attrs) && DirectCount(children, "summary") > 0 && LinkScripts(SummaryContent(children)) > 0)
      || DoublesScript(children)
      || DoublesScript(next)
    case _ => DoublesScript(f.next)
  }

  /** The scripts of the document as it reads back. */
  ghost function OutputScripts(f: Forest): seq<string>
  {
    ScriptMarkup(Erase(f))
  }

  lemma {:induction false} ScriptsAppend(f: Forest, g: Forest)
    ensures ScriptMarkup(Append(f, g)) == ScriptMarkup(f) + ScriptMarkup(g)
  {
    if f == Empty {
    } else {
      ScriptsAppend(f.next, g);
    }
  }

  lemma {:induction false} OutputScriptsAppend(f: Forest, g: Forest)
    ensures OutputScripts(Append(f, g)) == OutputScripts(f) + OutputScripts(g)
  {
    EraseAppend(f, g);
    ScriptsAppend(Erase(f), Erase(g));
  }

  lemma {:induction false} TextIsPlain(f: Forest)
    requires IsText(f)
    ensures Plain(f) && ScriptMarkup(f) == [] && Spans(f) == f && !DoublesScript(f)
    ensures Project(f) == Success((f, NONE_COUNTED))
  {
    if f == Empty {
    } else {
      TextIsPlain(f.next);
    }
  }

  /** Making links into spans keeps the scripts, and copying the links copies theirs. */
  lemma {:induction false} LinksCopyScripts(f: Forest)
    requires ScriptsAreText(f)
    ensures ScriptMarkup(Spans(f)) == ScriptMarkup(f) && ScriptsAreText(Spans(f))
    ensures |ScriptMarkup(Links(f))| == LinkScripts(f)
  {
    if f == Empty {
    } else {
      LinksCopyScripts(f.next);
      if f.Element? && !IsLink(f.tag, f.attrs) {
        LinksCopyScripts(f.children);
        ScriptsAppend(Links(f.children), Links(f.next));
        if f.tag == "script" {
          TextIsPlain(f.children);
        }
      }
    }
  }

  /** The scripts of an element that is no script itself are those of its children. */
  lemma {:induction false} ElementScripts(e: Forest, children: Forest)
    requires e.Element? && e.tag != "script"
    ensures OutputScripts(Element(e.tag, e.attrs, e.opening, e.closing, children, Empty)) == OutputScripts(children)
  {
    assert OutputScripts(Empty) == [];
  }

  /** Replacing an element's children and putting markup behind it exchanges their scripts. */
  lemma {:induction false} ReplaceScripts(f: Forest, tag: string, children: Forest, after: Forest)
    requires DirectCount(f, tag) > 0 && tag != "script"
    ensures |OutputScripts(Replace(f, tag, children, after))| + |OutputScripts(Direct(f, tag).children)|
         == |OutputScripts(f)| + |OutputScripts(children)| + |OutputScripts(after)|
    ensures OutputScripts(children) + OutputScripts(after) == OutputScripts(Direct(f, tag).children) ==>
              OutputScripts(Replace(f, tag, children, after)) == OutputScripts(f)
  {
    hide OutputScripts;
    var first := First(f);
    assert f == Append(first, f.next);
    OutputScriptsAppend(first, f.next);
    if f.Element? && f.tag == tag {
      var first' := Element(f.tag, f.attrs, f.opening, f.closing, children, Empty);
      assert Replace(f, tag, children, after) == Append(first', Append(after, f.next));
      OutputScriptsAppend(first', Append(after, f.next));
      OutputScriptsAppend(after, f.next);
      ElementScripts(f, children);
      ElementScripts(f, f.children);
    } else {
      assert Replace(f, tag, children, after) == Append(first, Replace(f.next, tag, children, after));
      OutputScriptsAppend(first, Replace(f.next, tag, children, after));
      ReplaceScripts(f.next, tag, children, after);
    }
  }

  lemma {:induction false} ReplaceKeepsText(f: Forest, tag: string, children: Forest, after: Forest)
    requires DirectCount(f, tag) > 0 && tag != "script" && ScriptsAreText(f) && ScriptsAreText(children)
    requires after == Empty || (after.Markup? && after.next == Empty)
    ensures ScriptsAreText(Replace(f, tag, children, after))
  {
    if f.Element? && f.tag == tag {
      assert Append(after, f.next) == if after == Empty then f.next else Markup(after.content, f.next);
    } else {
      ReplaceKeepsText(f.next, tag, children, after);
    }
  }

  lemma {:induction false} DirectScripts(f: Forest, tag: string)
    requires DirectCount(f, tag) > 0
    ensures ScriptsAreText(f) ==> ScriptsAreText(Direct(f, tag).children)
    ensures DoublesScript(Direct(f, tag).children) ==> DoublesScript(f)
    ensures tag != "a" ==> LinkScripts(Direct(f, tag).children) <= LinkScripts(f)
  {
    if !(f.Element? && f.tag == tag) {
      DirectScripts(f.next, tag);
    }
  }

  /** No links, no scripts in them. */
  lemma {:induction false} NoLinksNoScripts(f: Forest)
    requires ActiveHrefs(f) == []
    ensures LinkScripts(f) == 0 && !DoublesScript(f)
  {
    if f == Empty {
    } else {
      NoLinksNoScripts(f.next);
      if f.Element? {
        NoLinksNoScripts(f.children);
        if DirectCount(f.children, "summary") > 0 {
          DirectScripts(f.children, "summary");
        }
      }
    }
  }

  /** A nested toggle that would double a script has it in a link of the list too. */
  lemma {:induction false} DoubledIsInLink(f: Forest)
    requires LinkError(f).None? && DoublesScript(f)
    ensures LinkScripts(f) > 0
  {
    if f.Element? {
      if IsLink(f.tag, f.attrs) {
        NoAnchorsNoHrefs(f.children);
        NoLinksNoScripts(f.children);
        if DoublesScript(f.next) {
          DoubledIsInLink(f.next);
        }
      } else {
        if DoublesScript(f.next) {
          DoubledIsInLink(f.next);
        } else if DoublesScript(f.children) {
          DoubledIsInLink(f.children);
        } else {
          DirectScripts(f.children, "summary");
        }
      }
    } else {
      DoubledIsInLink(f.next);
    }
  }

  lemma {:induction false} GroupScripts(links: Forest)
    ensures ScriptMarkup(Group(links)) == ScriptMarkup(links)
  {
    assert ScriptMarkup(Group(links).children) == ScriptMarkup(links);
  }

  /** Moving the links of a summary adds a copy of every script inside them. */
  lemma {:induction false} MoveLinksScripts(items: Forest)
    requires Plain(items) && ScriptsAreText(items) && DirectCount(items, "summary") > 0
    ensures ScriptsAreText(MoveLinks(items))
    ensures var extra := LinkScripts(SummaryContent(items));
            && |OutputScripts(MoveLinks(items))| == |ScriptMarkup(items)| + extra
            && (extra == 0 ==> OutputScripts(MoveLinks(items)) == ScriptMarkup(items))
  {
    var content := SummaryContent(items);
    var group := Markup(Group(Links(content)), Empty);
    DirectPlain(items, "summary");
    DirectScripts(items, "summary");
    ErasePlain(items);
    ErasePlain(content);
    SpansPlain(content);
    ErasePlain(Spans(content));
    LinksCopyScripts(content);
    GroupScripts(Links(content));
    AppendEmpty(group.content);
    assert Erase(group) == group.content;
    assert OutputScripts(group) == ScriptMarkup(Links(content));
    hide Spans, Links, Group, Replace, ScriptsAreText, LinkScripts, SummaryContent, Direct, Plain;
    ReplaceScripts(items, "summary", Spans(content), group);
    ReplaceKeepsText(items, "summary", Spans(content), group);
  }

  /** A new label changes no script. */
  lemma {:induction false} RelabelScripts(items: Forest)
    requires Plain(items) && ScriptsAreText(items)
    requires DirectCount(items, "summary") > 0 && HasDescriptionLabel(SummaryContent(items))
    ensures ScriptsAreText(Relabel(items)) && OutputScripts(Relabel(items)) == ScriptMarkup(items)
  {
    var content := SummaryContent(items);
    var content' := Replace(content, "span", Chars("Description", Empty), Empty);
    DirectPlain(items, "summary");
    DirectScripts(items, "summary");
    ErasePlain(items);
    ErasePlain(content);
    assert OutputScripts(Direct(content, "span").children) == [] == OutputScripts(Chars("Description", Empty));
    hide Replace, ScriptsAreText, Direct, Plain, ScriptMarkup, OutputScripts;
    NoScriptsInText();
    ReplaceScripts(content, "span", Chars("Description", Empty), Empty);
    ReplaceKeepsText(content, "span", Chars("Description", Empty), Empty);
    ReplaceScripts(items, "summary", content', Empty);
    ReplaceKeepsText(items, "summary", content', Empty);
    OutputOfPlain(items);
    OutputOfPlain(content);
  }

  lemma {:induction false} NoScriptsInText()
    ensures OutputScripts(Empty) == [] && ScriptsAreText(Chars("Description", Empty))
  {
  }

  lemma {:induction false} OutputOfPlain(f: Forest)
    requires Plain(f)
    ensures OutputScripts(f) == ScriptMarkup(f)
  {
    ErasePlain(f);
  }

  /** Replacing a summary's content by content without such a toggle leaves the others. */
  lemma {:induction false} ReplaceDoubles(f: Forest, children: Forest, after: Forest)
    requires DirectCount(f, "summary") > 0
    requires !DoublesScript(children) && !DoublesScript(Direct(f, "summary").children)
    requires after == Empty || (after.Markup? && after.next == Empty)
    ensures DoublesScript(Replace(f, "summary", children, after)) <==> DoublesScript(f)
  {
    if f.Element? && f.tag == "summary" {
      assert Append(after, f.next) == if after == Empty then f.next else Markup(after.content, f.next);
    } else {
      ReplaceDoubles(f.next, children, after);
    }
  }

  /** What dealing with a toggle does to its scripts: it adds those inside the links of its summary. */
  lemma {:induction false} ToggleScripts(items: Forest)
    requires Plain(items) && ScriptsAreText(items) && ProjectToggle(items).Success?
    ensures DirectCount(items, "summary") > 0
    ensures var items', extra := ProjectToggle(items).value.0, LinkScripts(SummaryContent(items));
            && ScriptsAreText(items')
            && |OutputScripts(items')| == |ScriptMarkup(items)| + extra
            && (extra == 0 ==> OutputScripts(items') == ScriptMarkup(items))
  {
    ToggleCases(items);
    OutputOfPlain(items);
    hide ProjectToggle, MoveLinks, Relabel, HasDescriptionLabel, OutputScripts, LinkError, ScriptsAreText;
    var content := SummaryContent(items);
    if ActiveHrefs(content) != [] {
      MoveLinksScripts(items);
    } else {
      NoLinksNoScripts(content);
      if HasDescriptionLabel(content) {
        RelabelScripts(items);
      }
    }
  }

  /** Where a toggle adds no script, it also leaves the toggles inside it as they are in this respect. */
  lemma {:induction false} ToggleDoubles(items: Forest)
    requires Plain(items) && ProjectToggle(items).Success?
    ensures DirectCount(items, "summary") > 0
    ensures LinkScripts(SummaryContent(items)) == 0 ==>
              (DoublesScript(ProjectToggle(items).value.0) <==> DoublesScript(items))
  {
    ToggleCases(items);
    var content := SummaryContent(items);
    hide ProjectToggle, HasDescriptionLabel, LinkError, DoublesScript;
    if LinkScripts(content) == 0 {
      if ActiveHrefs(content) != [] {
        if DoublesScript(content) {
          DoubledIsInLink(content);
        }
        LinksMove(content);
        NoLinksNoScripts(Spans(content));
        ReplaceDoubles(items, Spans(content), Markup(Group(Links(content)), Empty));
      } else {
        NoLinksNoScripts(content);
        if HasDescriptionLabel(content) {
          DirectPlain(items, "summary");
          RelabelledContent(content);
          var content' := Replace(content, "span", Chars("Description", Empty), Empty);
          NoLinksNoScripts(content');
          ReplaceDoubles(items, content', Empty);
        }
      }
    }
  }

  /** The scripts stay as they are, or there are more. */
  ghost predicate Changes(before: seq<string>, after: seq<string>, doubles: bool)
  {
    if doubles then |after| > |before| else after == before
  }

  lemma {:induction false} OutputOfElement(f: Forest)
    requires f.Element?
    ensures OutputScripts(f)
         == (if f.tag == "script" then [f.opening + Render(Erase(f.children)) + f.closing] else [])
            + OutputScripts(f.children) + OutputScripts(f.next)
  {
  }

  /** What dealing with a toggle and then with everything inside it does. */
  lemma {:induction false} ToggleThenInside(items: Forest)
    requires Plain(items) && ScriptsAreText(items) && ProjectToggle(items).Success?
    requires Fresh(ProjectToggle(items).value.0) && Project(ProjectToggle(items).value.0).Success?
    requires ScriptsAreText(ProjectToggle(items).value.0) ==>
               var items' := ProjectToggle(items).value.0;
               Changes(OutputScripts(items'), OutputScripts(Project(items').value.0), DoublesScript(items'))
    ensures DirectCount(items, "summary") > 0
    ensures Changes(ScriptMarkup(items), OutputScripts(Project(ProjectToggle(items).value.0).value.0),
                    LinkScripts(SummaryContent(items)) > 0 || DoublesScript(items))
  {
    ToggleScripts(items);
    ToggleDoubles(items);
    hide ProjectToggle, Project, OutputScripts, DoublesScript, ScriptsAreText, LinkScripts;
  }

  /**
   The projection changes the scripts of a document exactly if a link that it moves contains one;
   then there are more of them.
   */
  lemma {:induction false} ProjectScripts(f: Forest)
    requires Fresh(f) && ScriptsAreText(f) && Project(f).Success?
    ensures Changes(OutputScripts(f), OutputScripts(Project(f).value.0), DoublesScript(f))
    decreases Size(f)
  {
    match f
    case Empty =>
    case Chars(_, next) => ProjectScripts(next);
    case Markup(content, next) =>
      ProjectScripts(next);
      ScriptsAppend(content, Erase(next));
      ScriptsAppend(content, Erase(Project(next).value.0));
    case Element(tag, attrs, _, _, children, next) => ProjectElementScripts(f);
  }

  lemma {:induction false} ProjectElementScripts(f: Forest)
    requires f.Element? && Fresh(f) && ScriptsAreText(f) && Project(f).Success?
    ensures Changes(OutputScripts(f), OutputScripts(Project(f).value.0), DoublesScript(f))
    decreases Size(f), 0
  {
    var children, next := f.children, f.next;
    OutputOfElement(f);
    OutputOfElement(Project(f).value.0);
    OutputOfPlain(children);
    ErasePlain(children);
    ProjectScripts(next);
    if f.tag == "script" {
      TextIsPlain(children);
      hide OutputScripts, ScriptMarkup, LinkScripts, ScriptsAreText;
    } else if IsToggle(f.tag, f.attrs) {
      ToggleKeepsHrefs(children);
      SizeToggle(children);
      var items' := ProjectToggle(children).value.0;
      if ScriptsAreText(items') {
        ProjectScripts(items');
      }
      ToggleThenInside(children);
      hide OutputScripts, ScriptMarkup, LinkScripts, ScriptsAreText, ProjectToggle;
    } else {
      ProjectScripts(children);
      hide OutputScripts, ScriptMarkup, LinkScripts, ScriptsAreText, ProjectToggle;
    }
  }

  lemma {:induction false} NoMarkersUnmarked(f: Forest)
    requires Plain(f)
    requires !Any(f, (_, attrs) => Has(attrs, MARKER)) && ClassError(f).None?
    ensures Unmarked(f)
  {
    if f == Empty {
    } else {
      NoMarkersUnmarked(f.next);
      if f.Element? {
        NoMarkersUnmarked(f.children);
        NoAttributeNoValue(f.attrs, MARKER);
      }
    }
  }

  lemma {:induction false} NoAttributeNoValue(attrs: seq<Attribute>, name: string)
    requires !Has(attrs, name)
    ensures ValueOf(attrs, name).None?
  {
    if attrs == [] {
    } else {
      assert !Has(attrs[1..], name) by {
        assert forall i :: 0 <= i < |attrs[1..]| ==> attrs[1..][i] == attrs[i + 1];
      }
      NoAttributeNoValue(attrs[1..], name);
    }
  }

  /** A fault of the document itself, found before anything is printed. */
  predicate IsInputFault(error: Error)
  {
    && error != HrefOrderChanged && error != ScriptChanged && error != LinkSurvived && error != MarkerDrift
    && !error.Malformed?
  }

  lemma {:induction false} LinkErrorIsInputFault(f: Forest)
    ensures LinkError(f).Some? ==> IsInputFault(LinkError(f).value)
  {
    if f == Empty {
    } else {
      LinkErrorIsInputFault(f.next);
      if f.Element? {
        LinkErrorIsInputFault(f.children);
      }
    }
  }

  lemma {:induction false} ToggleFailsOnInputFaults(items: Forest)
    ensures ProjectToggle(items).Failure? ==> IsInputFault(ProjectToggle(items).error)
  {
    hide LabelText, HasClass, IsSpecialLabel, LinkError, Replace, Spans, Links, Group, ActiveHrefs;
    if DirectCount(items, "summary") == 1 {
      LinkErrorIsInputFault(Direct(items, "summary").children);
    }
  }

  lemma {:induction false} ProjectFailsOnInputFaults(f: Forest)
    ensures Project(f).Failure? ==> IsInputFault(Project(f).error)
    decreases Size(f)
  {
    if f == Empty {
    } else {
      ProjectFailsOnInputFaults(f.next);
      if f.Element? {
        ToggleFailsOnInputFaults(f.children);
        hide ProjectToggle;
        if !IsToggle(f.tag, f.attrs) {
          ProjectFailsOnInputFaults(f.children);
        } else if ProjectToggle(f.children).Success? {
          SizeToggle(f.children);
          ProjectFailsOnInputFaults(ProjectToggle(f.children).value.0);
        }
      }
    }
  }

  /**
   What reading back the printed projection of any parsed document finds: its links, marks and
   groups. If the start tags of the document are read as the elements they start, so are those of
   the projection, and its print is that of the document they are read as.
   */
  lemma {:induction false} ProjectionReadsBack(root: Forest, read: StartReader)
    requires WellFormed(root) && InputError(root).None? && Project(root).Success?
    ensures var (tree, stats) := Project(root).value;
            && Parse(Flatten(tree)) == Success(Erase(tree))
            && ActiveHrefs(Erase(tree)) == ActiveHrefs(root)
            && (HasSummaryLink(Erase(tree)) <==> Escapes(root, false))
            && MarkedHrefs(Erase(tree)) == SummaryHrefs(root, false)
            && MarkedCount(Erase(tree)) == stats.links
            && GroupCount(Erase(tree)) == stats.sections
            && Render(tree) == Render(Erase(tree))
            && (Understands(read) && ReadsAsItself(root, read) ==> ReadsAsItself(Erase(tree), read))
  {
    var (tree, stats) := Project(root).value;
    hide InputError, Project, Understands, Escapes;
    ReadsWhatItIs(root, tree, read);
    WellFormedIsPlain(root);
    ErasePlain(root);
    InputIsUnmarked(root);
    hide Any, HasClass, IsGroupElement, Plain, Fresh, WellFormed, Printable;
    ProjectPrintable(root);
    PrintedReadsBack(tree);
    ProjectKeepsHrefs(root);
    PlainSettled(root, false);
    ProjectSummaryLinks(root, false);
    SimpleIsTidy(root);
    ProjectCounts(root);
    CountErase(tree);
    SpansCarryHrefs(root);
    EraseRenders(tree);
  }

  lemma {:induction false} ReadsWhatItIs(root: Forest, tree: Forest, read: StartReader)
    requires Project(root).Success? && tree == Project(root).value.0
    ensures Understands(read) && ReadsAsItself(root, read) ==> ReadsAsItself(Erase(tree), read)
  {
    if Understands(read) && ReadsAsItself(root, read) {
      ProjectionReadsAsItself(root, read);
      EraseReads(tree, read);
    }
  }

  lemma {:induction false} InputIsUnmarked(root: Forest)
    requires Plain(root) && InputError(root).None?
    ensures Unmarked(root)
  {
    NoMarkersUnmarked(root);
  }

  lemma {:induction false} RenderAppend(f: Forest, g: Forest)
    ensures Render(Append(f, g)) == Render(f) + Render(g)
  {
    if f == Empty {
    } else {
      RenderAppend(f.next, g);
    }
  }

  /** Reading inserted markup back does not change the print. */
  lemma {:induction false} EraseRenders(f: Forest)
    ensures Render(Erase(f)) == Render(f)
  {
    if f == Empty {
    } else {
      EraseRenders(f.next);
      match f
      case Element(_, _, _, _, children, _) => EraseRenders(children);
      case Markup(content, next) => RenderAppend(content, Erase(next));
      case Chars(_, _) =>
    }
  }

  /** The text prints a document with the links of `root` and with spans for those in own summaries. */
  ghost predicate IsOutput(root: Forest, text: string, output: Forest, read: StartReader)
  {
    && text == Render(output)
    && ActiveHrefs(output) == ActiveHrefs(root)
    && MarkedHrefs(output) == SummaryHrefs(root, false)
    && (Understands(read) && ReadsAsItself(root, read) ==> ReadsAsItself(output, read))
  }

  /**
   Of the checks on the output, those on the link order, the markers and the output's own
   markup can never fail. For documents as the tokenizer gives them, the one on scripts fails
   exactly if a link in a toggle's own summary contains a script, and the one on links inside
   summaries exactly if, besides, no such script is there but a link inside a summary that no
   toggle owns. What is then printed is a document with the same links, with spans that carry the
   addresses of the moved ones, and with start tags that read as what they start.
   */
  lemma {:induction false} OutputChecks(root: Forest, read: StartReader)
    requires WellFormed(root)
    ensures var r, projects := ProjectDocument(root), InputError(root).None? && Project(root).Success?;
            && (r.Failure? ==> r.error != HrefOrderChanged && r.error != MarkerDrift && !r.error.Malformed?)
            && (ScriptsAreText(root) ==>
                  && (r == Failure(ScriptChanged) <==> projects && DoublesScript(root))
                  && (r == Failure(LinkSurvived) <==> projects && !DoublesScript(root) && Escapes(root, false))
                  && (r.Success? <==> projects && !DoublesScript(root) && !Escapes(root, false)))
            && (r.Success? ==> IsOutput(root, r.value.0, Erase(Project(root).value.0), read))
  {
    if InputError(root).None? && Project(root).Success? {
      ProjectionReadsBack(root, read);
      if ScriptsAreText(root) {
        WellFormedIsPlain(root);
        OutputOfPlain(root);
        ProjectScripts(root);
      }
    }
    ProjectFailsOnInputFaults(root);
    InputErrorIsInputFault(root);
    hide InputError, Project, Escapes, DoublesScript, ScriptsAreText, ScriptMarkup;
  }

  lemma {:induction false} InputErrorIsInputFault(f: Forest)
    ensures InputError(f).Some? ==> IsInputFault(InputError(f).value)
  {
    ClassErrorIsInputFault(f);
  }

  lemma {:induction false} ClassErrorIsInputFault(f: Forest)
    ensures ClassError(f).Some? ==> IsInputFault(ClassError(f).value)
  {
    hide Repeats, HasClass;
    if f == Empty {
    } else {
      ClassErrorIsInputFault(f.next);
      if f.Element? {
        ClassErrorIsInputFault(f.children);
      }
    }
  }

  // ---------------------------------------------------------------- documents that fail

  /** An element that holds something, with its tags written out. */
  function Wrapped(tag: string, attrs: seq<Attribute>, opening: string, children: Forest): Forest
  {
    Element(tag, attrs, opening, EndTag(tag), children, Empty)
  }

  const LINK: seq<Attribute> := [("href", Some("x"))]
  const SECTION: seq<Attribute> := [("id", Some("s"))]
  const TOGGLE: seq<Attribute> := [("class", Some("toggle"))]

  function Linked(children: Forest): Forest
  {
    Wrapped("a", LINK, "<a href=\"x\">", children)
  }

  /** All elements have one of these lists of attributes, and none. */
  predicate Modest(f: Forest)
  {
    match f
    case Empty => true
    case Element(_, attrs, _, _, children, next) =>
      attrs in {[], LINK, SECTION, TOGGLE} && Modest(children) && Modest(next)
    case _ => Modest(f.next)
  }

  lemma {:induction false} NoneOfThem(f: Forest, p: (string, seq<Attribute>) -> bool)
    requires Modest(f)
    requires forall tag: string, attrs: seq<Attribute> :: attrs in {[], LINK, SECTION, TOGGLE} ==> !p(tag, attrs)
    ensures !Any(f, p)
  {
    if f == Empty {
    } else {
      NoneOfThem(f.next, p);
      if f.Element? {
        NoneOfThem(f.children, p);
      }
    }
  }

  lemma {:induction false} ModestAttributes(attrs: seq<Attribute>)
    requires attrs in {[], LINK, SECTION, TOGGLE}
    ensures !Repeats(attrs, "id") && !Repeats(attrs, "href") && !Repeats(attrs, "class") && !Has(attrs, MARKER)
    ensures !HasClass(attrs, GROUP_CLASS) && !HasClass(attrs, LABEL_CLASS)
  {
    OneWordClass("toggle", GROUP_CLASS);
    OneWordClass("toggle", LABEL_CLASS);
    assert |MARKER| == 16 && |GROUP_CLASS| > 6 && |LABEL_CLASS| > 6;
    hide Split;
  }

  lemma {:induction false} ModestClasses(f: Forest)
    requires Modest(f)
    ensures ClassError(f).None?
  {
    if f == Empty {
    } else {
      ModestClasses(f.next);
      if f.Element? {
        ModestClasses(f.children);
        ModestAttributes(f.attrs);
        hide Repeats, Has, HasClass;
      }
    }
  }

  /** Nothing is wrong with the attributes of a modest document. */
  lemma {:induction false} ModestInput(f: Forest)
    requires Modest(f)
    ensures InputError(f).None?
  {
    forall attrs: seq<Attribute> | attrs in {[], LINK, SECTION, TOGGLE}
      ensures !Repeats(attrs, "id") && !Repeats(attrs, "href") && !Repeats(attrs, "class") && !Has(attrs, MARKER)
      ensures !HasClass(attrs, GROUP_CLASS) && !HasClass(attrs, LABEL_CLASS)
    {
      ModestAttributes(attrs);
    }
    ModestClasses(f);
    hide Repeats, Has, HasClass;
    forall p: (string, seq<Attribute>) -> bool
      | forall tag: string, attrs: seq<Attribute> :: attrs in {[], LINK, SECTION, TOGGLE} ==> !p(tag, attrs)
      ensures !Any(f, p)
    {
      NoneOfThem(f, p);
    }
  }

  predicate NoToggle(f: Forest)
  {
    match f
    case Empty => true
    case Element(tag, _, _, _, children, next) => tag != "details" && NoToggle(children) && NoToggle(next)
    case _ => NoToggle(f.next)
  }

  /** Without toggles there is nothing to project. */
  lemma {:induction false} NoToggleProjects(f: Forest)
    requires NoToggle(f)
    ensures Project(f).Success? && !DoublesScript(f)
    decreases Size(f)
  {
    if f == Empty {
    } else {
      NoToggleProjects(f.next);
      if f.Element? {
        NoToggleProjects(f.children);
      }
    }
    hide ProjectToggle, LinkScripts;
  }

  lemma {:induction false} NotVoid()
    ensures forall tag :: tag in {"a", "details", "script", "section", "summary"} ==> tag !in VOID_TAGS
  {
  }

  /** What holds of an element's one child holds of the element. */
  lemma {:induction false} WrappedKeeps(tag: string, attrs: seq<Attribute>, opening: string, children: Forest)
    requires tag !in VOID_TAGS && WellFormed(children) && ScriptsAreText(children) && Modest(children)
    requires (tag == "script" ==> IsText(children)) && attrs in {[], LINK, SECTION, TOGGLE}
    ensures var f := Wrapped(tag, attrs, opening, children);
            && WellFormed(f) && ScriptsAreText(f) && Modest(f)
            && (NoToggle(f) <==> tag != "details" && NoToggle(children))
            && ActiveHrefs(f)
               == (if IsLink(tag, attrs) then [ValueOf(attrs, "href").value] else []) + ActiveHrefs(children)
  {
    assert EndTag(tag) != "";
    assert ActiveHrefs(Empty) == [];
  }

  lemma {:induction false} LinkedIsLink(children: Forest)
    requires WellFormed(children) && ScriptsAreText(children) && Modest(children)
    requires NoToggle(children) && ActiveHrefs(children) == []
    ensures var f := Linked(children);
            WellFormed(f) && ScriptsAreText(f) && Modest(f) && NoToggle(f) && ActiveHrefs(f) == ["x"]
  {
    NotVoid();
    WrappedKeeps("a", LINK, "<a href=\"x\">", children);
    assert "a"[0] != "details"[0] && "a"[0] != "script"[0];
    hide WellFormed, ScriptsAreText, Modest, NoToggle;
    assert ["x"] + ActiveHrefs(children) == ["x"];
  }

  /** A summary on its own with a link inside. */
  const LINK_IN_SUMMARY := Wrapped("summary", [], "<summary>", Linked(Empty))

  /** Nothing stops such a document before its output is checked, and then the link is found. */
  lemma {:induction false} LinkInSummarySurvives()
    ensures WellFormed(LINK_IN_SUMMARY) && ScriptsAreText(LINK_IN_SUMMARY)
    ensures ProjectDocument(LINK_IN_SUMMARY) == Failure(LinkSurvived)
  {
    NotVoid();
    LinkedIsLink(Empty);
    assert "summary"[1] != "details"[1] && "summary"[1] != "script"[1];
    assert Escapes(LINK_IN_SUMMARY, false) by {
      hide ActiveHrefs;
      LinkedIsLink(Empty);
    }
    hide WellFormed, ScriptsAreText, Modest, NoToggle, ProjectDocument, InputError, Project, DoublesScript;
    hide Linked, Escapes, VOID_TAGS;
    WrappedKeeps("summary", [], "<summary>", Linked(Empty));
    ModestInput(LINK_IN_SUMMARY);
    NoToggleProjects(LINK_IN_SUMMARY);
    OutputChecks(LINK_IN_SUMMARY, ReadStart);
  }

  const SCRIPT := Wrapped("script", [], "<script>", Chars("t", Empty))
  const SIGNATURE := Wrapped("section", SECTION, "<section id=\"s\">", Linked(SCRIPT))
  const SCRIPT_SUMMARY := Wrapped("summary", [], "<summary>", SIGNATURE)

  /** A toggle whose signature has a link with a script inside. */
  const SCRIPT_IN_LINK := Wrapped("details", TOGGLE, "<details class=\"toggle\">", SCRIPT_SUMMARY)

  lemma {:induction false} SignatureIsModest()
    ensures WellFormed(SIGNATURE) && ScriptsAreText(SIGNATURE) && Modest(SIGNATURE) && NoToggle(SIGNATURE)
    ensures ActiveHrefs(SIGNATURE) == ["x"]
  {
    NotVoid();
    assert "script"[0] != "details"[0] && "section"[0] != "details"[0] && "section"[1] != "script"[1];
    assert !IsLink("script", []) && !IsLink("section", SECTION) by {
      assert "script"[0] != "a"[0] && "section"[0] != "a"[0];
    }
    assert WellFormed(Chars("t", Empty)) && ScriptsAreText(Chars("t", Empty)) && Modest(Chars("t", Empty));
    assert NoToggle(Chars("t", Empty)) && IsText(Chars("t", Empty)) && ActiveHrefs(Chars("t", Empty)) == [];
    hide WellFormed, ScriptsAreText, Modest, NoToggle, IsText, ActiveHrefs, Linked, VOID_TAGS, IsLink;
    WrappedKeeps("script", [], "<script>", Chars("t", Empty));
    LinkedIsLink(SCRIPT);
    WrappedKeeps("section", SECTION, "<section id=\"s\">", Linked(SCRIPT));
  }

  lemma {:induction false} SignatureProjects()
    ensures SummaryContent(SCRIPT_SUMMARY) == SIGNATURE && DirectCount(SCRIPT_SUMMARY, "summary") == 1
    ensures DirectCount(SIGNATURE, "section") == 1 && Direct(SIGNATURE, "section").attrs == SECTION
    ensures LinkError(SIGNATURE).None? && LinkScripts(SIGNATURE) == 1
  {
    assert IsLink("a", LINK) && !IsLink("section", SECTION) && AnchorError(LINK, SCRIPT).None? by {
      assert "section"[0] != "a"[0] && "script"[0] != "a"[0];
    }
    assert LinkError(Linked(SCRIPT)).None?;
    assert ScriptMarkup(Chars("t", Empty)) == [];
    assert |ScriptMarkup(SCRIPT)| == 1;
    assert LinkScripts(Linked(SCRIPT)) == 1;
  }

  lemma {:induction false} SpansNoToggle(f: Forest)
    requires NoToggle(f)
    ensures NoToggle(Spans(f))
  {
    if f == Empty {
    } else {
      SpansNoToggle(f.next);
      if f.Element? {
        SpansNoToggle(f.children);
        assert "span"[0] != "details"[0];
      }
    }
  }

  /** A summary with one section that has an id and only projectable links is projected by moving them. */
  lemma {:induction false} SectionMoves(items: Forest)
    requires DirectCount(items, "summary") == 1 && DirectCount(SummaryContent(items), "section") == 1
    requires ValueOf(Direct(SummaryContent(items), "section").attrs, "id") == Some("s")
    requires ActiveHrefs(SummaryContent(items)) != [] && LinkError(SummaryContent(items)).None?
    ensures ProjectToggle(items).Success? && ProjectToggle(items).value.0 == MoveLinks(items)
  {
    hide LinkError, ActiveHrefs, MoveLinks, LabelText, HasClass, IsSpecialLabel;
  }

  lemma {:induction false} MovesNoToggle(f: Forest)
    requires f.Element? && f.tag == "summary" && f.next == Empty && NoToggle(f.children)
    ensures NoToggle(MoveLinks(f))
  {
    SpansNoToggle(f.children);
    assert "summary"[0] != "details"[0];
    hide Spans, Links, Group;
    var group := Markup(Group(Links(f.children)), Empty);
    AppendEmpty(group);
    assert SummaryContent(f) == f.children;
    assert MoveLinks(f) == Element("summary", f.attrs, f.opening, f.closing, Spans(f.children), group);
    assert NoToggle(group);
  }

  /** A toggle whose items are projected, and again inside, is projected. */
  lemma {:induction false} ToggleProjects(tag: string, attrs: seq<Attribute>, opening: string, items: Forest)
    requires IsToggle(tag, attrs) && ProjectToggle(items).Success? && Project(ProjectToggle(items).value.0).Success?
    ensures Project(Wrapped(tag, attrs, opening, items)).Success?
    ensures DirectCount(items, "summary") > 0 && LinkScripts(SummaryContent(items)) > 0 ==>
              DoublesScript(Wrapped(tag, attrs, opening, items))
  {
    EmptyIsNoToggle();
    hide ProjectToggle, IsToggle, LinkScripts;
  }

  lemma {:induction false} SampleAttributes()
    ensures ValueOf(SECTION, "id") == Some("s") && IsToggle("details", TOGGLE)
  {
    OneWordClass("toggle", "toggle");
  }

  lemma {:induction false} ScriptToggleProjects()
    ensures Project(SCRIPT_IN_LINK).Success? && DoublesScript(SCRIPT_IN_LINK)
  {
    SignatureIsModest();
    SignatureProjects();
    SampleAttributes();
    hide ValueOf, ProjectToggle, Project, LinkError, LinkScripts, ActiveHrefs, MoveLinks, DoublesScript, NoToggle,
         IsToggle, WellFormed, ScriptsAreText, Modest;
    SectionMoves(SCRIPT_SUMMARY);
    MovesNoToggle(SCRIPT_SUMMARY);
    NoToggleProjects(MoveLinks(SCRIPT_SUMMARY));
    ToggleProjects("details", TOGGLE, "<details class=\"toggle\">", SCRIPT_SUMMARY);
  }

  lemma {:induction false} ScriptToggleIsModest()
    ensures WellFormed(SCRIPT_IN_LINK) && ScriptsAreText(SCRIPT_IN_LINK) && Modest(SCRIPT_IN_LINK)
  {
    NotVoid();
    SignatureIsModest();
    assert "summary"[1] != "script"[1] && "details"[0] != "script"[0];
    hide *;
    WrappedKeeps("summary", [], "<summary>", SIGNATURE);
    WrappedKeeps("details", TOGGLE, "<details class=\"toggle\">", SCRIPT_SUMMARY);
  }

  /** Such a document is projected, printed and read back, and then the script is found twice. */
  lemma {:induction false} ScriptInLinkIsDoubled()
    ensures WellFormed(SCRIPT_IN_LINK) && ScriptsAreText(SCRIPT_IN_LINK)
    ensures ProjectDocument(SCRIPT_IN_LINK) == Failure(ScriptChanged)
  {
    hide *;
    ScriptToggleIsModest();
    ScriptToggleProjects();
    ModestInput(SCRIPT_IN_LINK);
    OutputChecks(SCRIPT_IN_LINK, ReadStart);
  }
}
