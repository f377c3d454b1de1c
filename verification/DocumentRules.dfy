/**
 Which documents the link projection accepts and what it counts in them, in terms of their
 elements: the checks before the walk, and the toggles the walk meets.
 */
module DocumentRules {
  import opened Wrappers
  import opened HtmlDocument
  import opened LinkProjection
  import opened ProjectionChecks
  import opened ToggleRules

  // ---------------------------------------------------------------- the checks before the walk

  type Tag = (string, seq<Attribute>)

  /** The elements of a document, in its order; markup in a text item has no elements yet. */
  ghost function Elements(f: Forest): seq<Tag>
  {
    match f
    case Empty => []
    case Element(tag, attrs, _, _, children, next) => [(tag, attrs)] + Elements(children) + Elements(next)
    case _ => Elements(f.next)
  }

  lemma {:induction false} AnyIsElement(f: Forest, p: (string, seq<Attribute>) -> bool)
    ensures Any(f, p) <==> exists e :: e in Elements(f) && p(e.0, e.1)
  {
    if f == Empty {
    } else {
      AnyIsElement(f.next, p);
      if f.Element? {
        AnyIsElement(f.children, p);
        assert (f.tag, f.attrs) in Elements(f);
      }
    }
  }

  /** What is wrong with an element before anything is projected. */
  ghost predicate ElementFault(e: Tag, error: Error)
  {
    match error
    case RepeatedAttribute(name) =>
      && (name == "id" || name == "class" || (name == "href" && e.0 == "a"))
      && exists i, j :: 0 <= i < j < |e.1| && e.1[i].0 == e.1[j].0 == name
    case ExistingMarker => exists i :: 0 <= i < |e.1| && e.1[i].0 == "data-eqiora-href"
    case ExistingGroup =>
      var class_ := ValueOf(e.1, "class");
      && class_.Some?
      && (HasWord(class_.value, "eqiora-signature-links") || HasWord(class_.value, "eqiora-signature-links__label"))
    case _ => false
  }

  ghost predicate HasFault(elements: seq<Tag>, error: Error)
  {
    exists e :: e in elements && ElementFault(e, error)
  }

  /** The walks over the elements that look for the faults, in their order. */
  ghost function Walk(error: Error): nat
  {
    match error
    case RepeatedAttribute(name) => if name == "id" then 0 else if name == "href" then 1 else 3
    case ExistingMarker => 2
    case _ => 3
  }

  /** A fault of the first walk that finds one; the last walk stops at the first element with either. */
  ghost predicate IsFoundFirst(elements: seq<Tag>, error: Error)
  {
    && HasFault(elements, error)
    && (forall other :: HasFault(elements, other) ==> Walk(error) <= Walk(other))
    && (Walk(error) == 3 ==> exists k: nat :: StopsAt(elements, k, error))
  }

  ghost predicate StopsAt(elements: seq<Tag>, k: nat, error: Error)
  {
    && k < |elements| && ElementFault(elements[k], error)
    && (error == ExistingGroup ==> !ElementFault(elements[k], RepeatedAttribute("class")))
    && !HasFault(elements[..k], RepeatedAttribute("class")) && !HasFault(elements[..k], ExistingGroup)
  }

  lemma {:induction false} AnyIsFault(f: Forest, p: (string, seq<Attribute>) -> bool, error: Error)
    requires forall e: Tag :: p(e.0, e.1) <==> ElementFault(e, error)
    ensures Any(f, p) <==> HasFault(Elements(f), error)
  {
    hide ElementFault;
    AnyIsElement(f, p);
  }

  lemma {:induction false} ClassFault(e: Tag)
    ensures HasClass(e.1, GROUP_CLASS) || HasClass(e.1, LABEL_CLASS) <==> ElementFault(e, ExistingGroup)
  {
    ClassIsWord(e.1, GROUP_CLASS);
    ClassIsWord(e.1, LABEL_CLASS);
  }

  /** The first element with a fault in its classes, if there is one, decides. */
  lemma {:induction false} ClassErrorIsFirst(f: Forest) returns (k: nat)
    ensures k <= |Elements(f)|
    ensures !HasFault(Elements(f)[..k], RepeatedAttribute("class")) && !HasFault(Elements(f)[..k], ExistingGroup)
    ensures ClassError(f).None? <==> k == |Elements(f)|
    ensures ClassError(f).Some? ==>
              ClassError(f).value in {RepeatedAttribute("class"), ExistingGroup}
              && StopsAt(Elements(f), k, ClassError(f).value)
  {
    match f
    case Empty => k := 0;
    case Chars(_, next) => k := ClassErrorIsFirst(next);
    case Markup(_, next) => k := ClassErrorIsFirst(next);
    case Element(tag, attrs, _, _, children, next) =>
      var e := (tag, attrs);
      ClassFault(e);
      assert Repeats(attrs, "class") <==> ElementFault(e, RepeatedAttribute("class"));
      hide ElementFault, Repeats, HasClass;
      k := 0;
      if !ElementFault(e, ExistingGroup) && !ElementFault(e, RepeatedAttribute("class")) {
        var inside := ClassErrorIsFirst(children);
        k := 1 + inside;
        assert Elements(f)[..1 + inside] == [e] + Elements(children)[..inside];
        if inside == |Elements(children)| {
          var behind := ClassErrorIsFirst(next);
          k := k + behind;
          assert Elements(f)[..k] == [e] + Elements(children) + Elements(next)[..behind];
        }
      }
  }

  lemma {:induction false} FaultOfElement(elements: seq<Tag>, k: nat, error: Error)
    requires k < |elements| && ElementFault(elements[k], error)
    ensures HasFault(elements, error)
  {
    assert elements[k] in elements;
    hide ElementFault;
  }

  /** The first walk that finds a fault decides. */
  lemma {:induction false} ErrorByWalks(f: Forest)
    ensures InputError(f) ==
            if HasFault(Elements(f), RepeatedAttribute("id")) then Some(RepeatedAttribute("id"))
            else if HasFault(Elements(f), RepeatedAttribute("href")) then Some(RepeatedAttribute("href"))
            else if HasFault(Elements(f), ExistingMarker) then Some(ExistingMarker)
            else ClassError(f)
  {
    AnyIsFault(f, (_, attrs) => Repeats(attrs, "id"), RepeatedAttribute("id"));
    AnyIsFault(f, (tag, attrs) => tag == "a" && Repeats(attrs, "href"), RepeatedAttribute("href"));
    AnyIsFault(f, (_, attrs) => Has(attrs, MARKER), ExistingMarker);
    hide Any, Elements, HasFault, ClassError;
  }

  lemma {:induction false} KnownFaults(elements: seq<Tag>, error: Error)
    requires HasFault(elements, error)
    ensures error in {RepeatedAttribute("id"), RepeatedAttribute("href"), RepeatedAttribute("class"), ExistingMarker,
                      ExistingGroup}
  {
  }

  /** The checks before the walk accept a document exactly if it has none of the faults, and name its first. */
  lemma {:induction false} InputRules(f: Forest)
    ensures InputError(f).None? <==> forall error :: !HasFault(Elements(f), error)
    ensures InputError(f).Some? ==> IsFoundFirst(Elements(f), InputError(f).value)
  {
    hide Any, Elements, ElementFault, ClassError, InputError, HasFault;
    var elements := Elements(f);
    ErrorByWalks(f);
    var k := ClassErrorIsFirst(f);
    assert elements[..|elements|] == elements;
    forall error | HasFault(elements, error)
      ensures error in {RepeatedAttribute("id"), RepeatedAttribute("href"), RepeatedAttribute("class"), ExistingMarker,
                        ExistingGroup}
    {
      KnownFaults(elements, error);
    }
    if ClassError(f).Some? {
      FaultOfElement(elements, k, ClassError(f).value);
    }
    assert InputError(f).Some? ==> HasFault(elements, InputError(f).value);
  }

  // ---------------------------------------------------------------- links that cannot be moved

  /** A link of the document that is in no other link. */
  ghost predicate IsOuterLink(f: Forest, attrs: seq<Attribute>, children: Forest)
  {
    match f
    case Empty => false
    case Element(tag, a, _, _, cs, next) =>
      || (if tag == "a" && ValueOf(a, "href").Some? then a == attrs && cs == children
          else IsOuterLink(cs, attrs, children))
      || IsOuterLink(next, attrs, children)
    case _ => IsOuterLink(f.next, attrs, children)
  }

  /** Links can be moved exactly if each outer one can, and else one that cannot is named. */
  lemma {:induction false} LinkRules(f: Forest)
    ensures LinkError(f).None? <==>
            forall attrs, children :: IsOuterLink(f, attrs, children) ==> AnchorError(attrs, children).None?
    ensures LinkError(f).Some? ==>
              exists attrs, children :: IsOuterLink(f, attrs, children) && AnchorError(attrs, children) == LinkError(f)
  {
    hide AnchorError;
    if f == Empty {
    } else {
      LinkRules(f.next);
      if f.Element? {
        LinkRules(f.children);
        assert IsLink(f.tag, f.attrs) ==> IsOuterLink(f, f.attrs, f.children);
      }
    }
  }

  // ---------------------------------------------------------------- the toggles the walk meets

  ghost predicate IsToggleElement(tag: string, attrs: seq<Attribute>)
  {
    var class_ := ValueOf(attrs, "class");
    tag == "details" && class_.Some? && HasWord(class_.value, "toggle")
  }

  lemma {:induction false} ToggleIsElement(tag: string, attrs: seq<Attribute>)
    ensures IsToggle(tag, attrs) <==> IsToggleElement(tag, attrs)
  {
    ClassIsWord(attrs, "toggle");
  }

  /** How many toggles a document has. */
  ghost function ToggleCount(f: Forest): nat
  {
    match f
    case Empty => 0
    case Element(tag, attrs, _, _, children, next) =>
      (if IsToggleElement(tag, attrs) then 1 else 0) + ToggleCount(children) + ToggleCount(next)
    case _ => ToggleCount(f.next)
  }

  lemma {:induction false} TogglesAppend(f: Forest, g: Forest)
    ensures ToggleCount(Append(f, g)) == ToggleCount(f) + ToggleCount(g)
  {
    hide IsToggleElement;
    if f == Empty {
    } else {
      TogglesAppend(f.next, g);
    }
  }

  lemma {:induction false} TogglesReplace(f: Forest, tag: string, children: Forest, after: Forest)
    requires DirectCount(f, tag) > 0
    ensures ToggleCount(Replace(f, tag, children, after)) + ToggleCount(Direct(f, tag).children)
         == ToggleCount(f) + ToggleCount(children) + ToggleCount(after)
  {
    hide IsToggleElement;
    if f.Element? && f.tag == tag {
      TogglesAppend(after, f.next);
      hide Append;
    } else {
      TogglesReplace(f.next, tag, children, after);
      hide Append;
    }
  }

  lemma {:induction false} TogglesSpans(f: Forest)
    ensures ToggleCount(Spans(f)) == ToggleCount(f)
  {
    hide Renamed, CanonicalStart, EndTag, ValueOf, HasWord;
    if f == Empty {
    } else {
      TogglesSpans(f.next);
      if f.Element? {
        TogglesSpans(f.children);
      }
    }
  }

  /** Dealing with a toggle neither adds nor removes toggles inside it. */
  lemma {:induction false} TogglesKept(items: Forest)
    requires ProjectToggle(items).Success?
    ensures ToggleCount(ProjectToggle(items).value.0) == ToggleCount(items)
  {
    ToggleCases(items);
    hide ProjectToggle, LinkError, IsToggleElement, ActiveHrefs, Spans, Links, Group, Replace;
    var content, renamed := SummaryContent(items), Chars("Description", Empty);
    if ProjectToggle(items).value.0 == MoveLinks(items) {
      TogglesSpans(content);
      TogglesReplace(items, "summary", Spans(content), Markup(Group(Links(content)), Empty));
    } else if HasDescriptionLabel(content) {
      TogglesReplace(content, "span", renamed, Empty);
      TogglesReplace(items, "summary", Replace(content, "span", renamed, Empty), Empty);
    }
  }

  /** A signature, a description or a count. */
  ghost predicate IsAcceptedToggle(items: Forest)
  {
    || IsSignature(items) || IsDescription(items)
    || exists text :: IsHidden(items, text) && IsCountLabel(text)
  }

  /** Every toggle is acceptable when the walk meets it, with those around it dealt with. */
  ghost predicate IsAcceptable(f: Forest)
    decreases Size(f)
  {
    match f
    case Empty => true
    case Element(tag, attrs, _, _, children, next) =>
      && (if !IsToggleElement(tag, attrs) then IsAcceptable(children)
          else IsAcceptedToggle(children) && IsAcceptable(Dealt(children)))
      && IsAcceptable(next)
    case _ => IsAcceptable(f.next)
  }

  /** The content of an accepted toggle, its summary dealt with. */
  ghost function Dealt(items: Forest): (items': Forest)
    requires IsAcceptedToggle(items)
    ensures Size(items') <= Size(items) + 1
  {
    AcceptedToggles(items);
    SizeToggle(items);
    ProjectToggle(items).value.0
  }

  /** The document is refused for the first toggle that is not acceptable. */
  ghost predicate IsFirstFault(f: Forest, error: Error)
    decreases Size(f)
  {
    match f
    case Empty => false
    case Element(tag, attrs, _, _, children, next) =>
      if IsToggleElement(tag, attrs) && !IsAcceptedToggle(children) then ToggleFault(children, error)
      else
        var inner := if IsToggleElement(tag, attrs) then Dealt(children) else children;
        if IsAcceptable(inner) then IsFirstFault(next, error) else IsFirstFault(inner, error)
    case _ => IsFirstFault(f.next, error)
  }

  /** All toggles are counted, each once in every count that is for its kind. */
  ghost predicate AllCounted(f: Forest, stats: Stats)
  {
    && stats.toggles == ToggleCount(f)
    && stats.toggles == stats.sections + stats.hideme
    && stats.hideme == stats.descriptions + stats.special
  }

  lemma {:induction false} ToggleIsCounted(items: Forest)
    ensures ProjectToggle(items).Success? <==> IsAcceptedToggle(items)
    ensures ProjectToggle(items).Success? ==>
              var stats := ProjectToggle(items).value.1;
              && stats.toggles == 1 == stats.sections + stats.hideme
              && stats.hideme == stats.descriptions + stats.special
  {
    AcceptedToggles(items);
    hide ProjectToggle, IsSignature, IsDescription, IsHidden, IsCountLabel;
    if IsAcceptedToggle(items) && !IsSignature(items) && !IsDescription(items) {
      var text :| IsHidden(items, text) && IsCountLabel(text);
    }
  }

  /** An element whose toggle, if it is one, is accepted; and what the walk goes on with inside it. */
  ghost predicate IsPassed(f: Forest)
  {
    f.Element? && (IsToggleElement(f.tag, f.attrs) ==> IsAcceptedToggle(f.children))
  }

  ghost function Inner(f: Forest): Forest
    requires IsPassed(f)
  {
    if IsToggleElement(f.tag, f.attrs) then Dealt(f.children) else f.children
  }

  /** One step of the walk, at an element that is passed. */
  lemma {:induction false} ProjectPassed(f: Forest) returns (own: Stats)
    requires IsPassed(f)
    ensures Size(Inner(f)) < Size(f)
    ensures own.toggles == if IsToggleElement(f.tag, f.attrs) then 1 else 0
    ensures own.toggles == own.sections + own.hideme && own.hideme == own.descriptions + own.special
    ensures ToggleCount(f) == own.toggles + ToggleCount(Inner(f)) + ToggleCount(f.next)
    ensures var inner, rest := Project(Inner(f)), Project(f.next);
            if inner.Failure? then Project(f) == inner
            else if rest.Failure? then Project(f) == rest
            else Project(f).Success? && Project(f).value.1 == Add(own, Add(inner.value.1, rest.value.1))
  {
    hide ProjectToggle, IsToggle, IsToggleElement, IsAcceptedToggle, Add;
    ToggleIsElement(f.tag, f.attrs);
    own := NONE_COUNTED;
    if IsToggleElement(f.tag, f.attrs) {
      ToggleIsCounted(f.children);
      TogglesKept(f.children);
      own := ProjectToggle(f.children).value.1;
    }
  }

  lemma {:induction false} ProjectStopped(f: Forest)
    requires f.Element? && !IsPassed(f)
    ensures Project(f).Failure? && ToggleFault(f.children, Project(f).error)
  {
    hide ProjectToggle, IsToggle, IsToggleElement, IsAcceptedToggle, ToggleFault;
    ToggleIsElement(f.tag, f.attrs);
    ToggleIsCounted(f.children);
    ToggleFaults(f.children);
  }

  /**
   The walk succeeds exactly if every toggle it meets is acceptable, and then has counted all
   toggles of the document; else it names what is wrong with the first one that is not.
   */
  lemma {:induction false} ProjectRules(f: Forest)
    ensures Project(f).Success? <==> IsAcceptable(f)
    ensures Project(f).Success? ==> AllCounted(f, Project(f).value.1)
    ensures Project(f).Failure? ==> IsFirstFault(f, Project(f).error)
    decreases Size(f)
  {
    if f.Element? {
      ProjectElementRules(f);
    } else if f != Empty {
      ProjectRules(f.next);
    }
  }

  lemma {:induction false} SizeOfNext(f: Forest)
    requires f.Element?
    ensures Size(f.next) < Size(f)
  {
  }

  lemma {:induction false} ProjectElementRules(f: Forest)
    requires f.Element?
    ensures Project(f).Success? <==> IsAcceptable(f)
    ensures Project(f).Success? ==> AllCounted(f, Project(f).value.1)
    ensures Project(f).Failure? ==> IsFirstFault(f, Project(f).error)
    decreases Size(f), 0
  {
    hide Project, ToggleCount, Size, IsToggleElement, IsAcceptedToggle, ToggleFault, Dealt;
    if IsPassed(f) {
      var own := ProjectPassed(f);
      SizeOfNext(f);
      ProjectRules(Inner(f));
      ProjectRules(f.next);
    } else {
      ProjectStopped(f);
    }
  }
}
