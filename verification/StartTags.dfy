/**
 The text of start tags: what a reader takes from it, without the printer, and that the tags
 the link projection writes read as the elements they are written for.
 */
module StartTags {
  import opened Wrappers
  import opened HtmlDocument
  import opened LinkProjection

  // ---------------------------------------------------------------- reading a start tag

  /** A character at which the name of a tag or of an attribute ends. */
  predicate EndsName(c: char)
  {
    IsSpace(c) || c == '/' || c == '>'
  }

  /** The first characters of a text, up to one at which a tag name ends. */
  function TagName(s: string): (name: string)
    ensures |name| <= |s|
  {
    if s == "" || EndsName(s[0]) then "" else [s[0]] + TagName(s[1..])
  }

  /** The same for what follows the first character of an attribute name. */
  function RestOfName(s: string): (name: string)
    ensures |name| <= |s|
  {
    if s == "" || EndsName(s[0]) || s[0] == '=' then "" else [s[0]] + RestOfName(s[1..])
  }

  /** The first characters of a text, up to a double quote. */
  function Quoted(s: string): (value: string)
    ensures |value| <= |s|
  {
    if s == "" || s[0] == '"' then "" else [s[0]] + Quoted(s[1..])
  }

  /** A value with its character references replaced by what they stand for. */
  function Decoded(s: string): string
  {
    if s == "" then ""
    else if "&amp;" <= s then ['&'] + Decoded(s[5..])
    else if "&lt;" <= s then ['<'] + Decoded(s[4..])
    else if "&gt;" <= s then ['>'] + Decoded(s[4..])
    else if "&quot;" <= s then ['"'] + Decoded(s[6..])
    else if "&#x27;" <= s then ['\''] + Decoded(s[6..])
    else [s[0]] + Decoded(s[1..])
  }

  /** Attributes, each behind a space and with or without a quoted value, up to the end of the tag. */
  function ReadAttributes(s: string): Option<seq<Attribute>>
    decreases |s|, 0
  {
    if s == ">" then Some([])
    else if |s| < 2 || s[0] != ' ' || EndsName(s[1]) then None
    else
      var name := [s[1]] + RestOfName(s[2..]);
      ReadValue(name, s[1 + |name|..])
  }

  /** What is read behind the name of an attribute. */
  function ReadValue(name: string, rest: string): Option<seq<Attribute>>
    decreases |rest|, 1
  {
    if "=\"" <= rest then
      var value := Quoted(rest[2..]);
      var behind := rest[2 + |value|..];
      if behind == "" then None else Prepended((name, Some(Decoded(value))), ReadAttributes(behind[1..]))
    else Prepended((name, None), ReadAttributes(rest))
  }

  function Prepended(first: Attribute, others: Option<seq<Attribute>>): Option<seq<Attribute>>
  {
    match others
    case Some(attrs) => Some([first] + attrs)
    case None => None
  }

  /** The tag and the attributes a start tag's text stands for. */
  function ReadStart(text: string): Option<(string, seq<Attribute>)>
  {
    if text == "" || text[0] != '<' then None
    else
      var tag := TagName(text[1..]);
      match ReadAttributes(text[1 + |tag|..])
      case Some(attrs) => Some((tag, attrs))
      case None => None
  }

  // ---------------------------------------------------------------- reading what is printed

  predicate IsTagName(s: string)
  {
    forall i :: 0 <= i < |s| ==> !EndsName(s[i])
  }

  predicate IsAttributeName(s: string)
  {
    s != "" && IsTagName(s) && '=' !in s[1..]
  }

  /** Attributes with names as a tokenizer gives them. */
  predicate Named(attrs: seq<Attribute>)
  {
    forall i :: 0 <= i < |attrs| ==> IsAttributeName(attrs[i].0)
  }

  lemma {:induction false} TagNameEnds(name: string, s: string)
    requires IsTagName(name) && s != "" && EndsName(s[0])
    ensures TagName(name + s) == name
  {
    if name == "" {
      assert name + s == s;
    } else {
      assert (name + s)[1..] == name[1..] + s;
      TagNameEnds(name[1..], s);
    }
  }

  lemma {:induction false} RestOfNameEnds(name: string, s: string)
    requires IsTagName(name) && '=' !in name && s != "" && (EndsName(s[0]) || s[0] == '=')
    ensures RestOfName(name + s) == name
  {
    if name == "" {
      assert name + s == s;
    } else {
      assert (name + s)[1..] == name[1..] + s;
      RestOfNameEnds(name[1..], s);
    }
  }

  lemma {:induction false} QuotedEnds(value: string, s: string)
    requires '"' !in value && s != "" && s[0] == '"'
    ensures Quoted(value + s) == value
  {
    if value == "" {
      assert value + s == s;
    } else {
      assert (value + s)[1..] == value[1..] + s;
      QuotedEnds(value[1..], s);
    }
  }

  lemma {:induction false} DecodedReference(c: char, t: string)
    ensures '"' !in Reference(c) && Decoded(Reference(c) + t) == [c] + Decoded(t)
  {
    var s := Reference(c) + t;
    match c
    case '&' => assert s[5..] == t;
    case '<' => assert s[1] == 'l' && s[4..] == t;
    case '>' => assert s[1] == 'g' && s[4..] == t;
    case '"' => assert s[1] == 'q' && s[6..] == t;
    case '\'' => assert s[1] == '#' && s[6..] == t;
    case _ => DecodedPlain(c, t);
  }

  lemma {:induction false} DecodedPlain(c: char, t: string)
    requires c != '&'
    ensures Decoded([c] + t) == [c] + Decoded(t)
  {
    var s := [c] + t;
    assert s[0] == c && s[1..] == t;
  }

  /** Escaped text has no quote, and its references stand for the text. */
  lemma {:induction false} DecodedEscape(s: string)
    ensures '"' !in Escape(s) && Decoded(Escape(s)) == s
  {
    if s == "" {
    } else {
      DecodedEscape(s[1..]);
      DecodedReference(s[0], Escape(s[1..]));
      assert s == [s[0]] + s[1..];
    }
  }

  lemma {:induction false} ReadsName(name: string, rest: string)
    requires IsAttributeName(name) && rest != "" && rest[0] in {' ', '>', '='}
    ensures ReadAttributes(" " + name + rest) == ReadValue(name, rest)
  {
    var s := " " + name + rest;
    RestOfNameEnds(name[1..], rest);
    assert s[1] == name[0] && s[2..] == name[1..] + rest && s[1 + |name|..] == rest;
    assert [s[1]] + RestOfName(s[2..]) == name;
  }

  lemma {:induction false} ReadsValue(name: string, value: string, others: string)
    ensures ReadValue(name, ValueText(Some(value)) + others) == Prepended((name, Some(value)), ReadAttributes(others))
  {
    var text := Escape(value);
    var rest := "=\"" + text + "\"" + others;
    DecodedEscape(value);
    QuotedEnds(text, "\"" + others);
    assert "=\"" <= rest && rest[2..] == text + ("\"" + others);
    assert rest[2 + |text|..] == "\"" + others && ("\"" + others)[1..] == others;
  }

  /** One attribute is read, and then the others. */
  lemma {:induction false} ReadsFirst(name: string, value: Option<string>, others: string)
    requires IsAttributeName(name) && others != "" && others[0] in {' ', '>'}
    ensures ReadAttributes(" " + name + (ValueText(value) + others))
         == Prepended((name, value), ReadAttributes(others))
  {
    ReadsName(name, ValueText(value) + others);
    hide ReadAttributes, IsAttributeName;
    if value.Some? {
      ReadsValue(name, value.value, others);
    } else {
      assert ValueText(value) + others == others;
    }
  }

  lemma {:induction false} TextOfFirst(attrs: seq<Attribute>)
    requires attrs != []
    ensures AttributesText(attrs) + ">"
         == " " + attrs[0].0 + (ValueText(attrs[0].1) + (AttributesText(attrs[1..]) + ">"))
  {
    hide ValueText;
  }

  lemma {:induction false} ReadsAttributes(attrs: seq<Attribute>)
    requires Named(attrs)
    ensures ReadAttributes(AttributesText(attrs) + ">") == Some(attrs)
  {
    if attrs == [] {
      assert AttributesText(attrs) + ">" == ">";
    } else {
      assert Named(attrs[1..]) && IsAttributeName(attrs[0].0);
      OthersStart(attrs[1..]);
      hide Named, IsAttributeName, ReadAttributes, AttributesText, ValueText;
      ReadsAttributes(attrs[1..]);
      TextOfFirst(attrs);
      ReadsFirst(attrs[0].0, attrs[0].1, AttributesText(attrs[1..]) + ">");
      assert attrs == [attrs[0]] + attrs[1..];
    }
  }

  lemma {:induction false} OthersStart(attrs: seq<Attribute>)
    ensures var s := AttributesText(attrs) + ">";
            s[0] == if attrs == [] then '>' else ' '
  {
  }

  lemma {:induction false} ReadsTag(tag: string, rest: string, attrs: seq<Attribute>)
    requires IsTagName(tag) && rest != "" && EndsName(rest[0]) && ReadAttributes(rest) == Some(attrs)
    ensures ReadStart("<" + tag + rest) == Some((tag, attrs))
  {
    TagNameEnds(tag, rest);
    hide ReadAttributes, TagName, IsTagName, EndsName;
    var text := "<" + tag + rest;
    assert text[1..] == tag + rest && text[1 + |tag|..] == rest;
  }

  /** A canonical start tag reads as the tag and the attributes it was printed from. */
  lemma {:induction false} CanonicalStartReads(tag: string, attrs: seq<Attribute>)
    requires IsTagName(tag) && Named(attrs)
    ensures ReadStart(CanonicalStart(tag, attrs)) == Some((tag, attrs))
  {
    var rest := AttributesText(attrs) + ">";
    OthersStart(attrs);
    assert CanonicalStart(tag, attrs) == "<" + tag + rest;
    hide ReadStart, ReadAttributes, AttributesText, CanonicalStart, IsTagName, Named;
    ReadsAttributes(attrs);
    ReadsTag(tag, rest, attrs);
  }

  // ---------------------------------------------------------------- the tags of a projection

  /** What a tokenizer takes the text of a start tag for. */
  type StartReader = string -> Option<(string, seq<Attribute>)>

  /** A reader that understands at least what `ReadStart` does, and in the same way. */
  ghost predicate Understands(read: StartReader)
  {
    forall text :: ReadStart(text).Some? ==> read(text) == ReadStart(text)
  }

  /** The text of every start tag is read as the tag and the attributes of its element. */
  ghost predicate ReadsAsItself(f: Forest, read: StartReader)
  {
    match f
    case Empty => true
    case Chars(_, next) => ReadsAsItself(next, read)
    case Element(tag, attrs, opening, _, children, next) =>
      read(opening) == Some((tag, attrs)) && ReadsAsItself(children, read) && ReadsAsItself(next, read)
    case Markup(content, next) => ReadsAsItself(content, read) && ReadsAsItself(next, read)
  }

  lemma {:induction false} CanonicalReads(tag: string, attrs: seq<Attribute>, read: StartReader)
    requires Understands(read) && IsTagName(tag) && Named(attrs)
    ensures read(CanonicalStart(tag, attrs)) == Some((tag, attrs))
  {
    CanonicalStartReads(tag, attrs);
  }

  lemma {:induction false} AppendReads(f: Forest, g: Forest, read: StartReader)
    ensures ReadsAsItself(Append(f, g), read) <==> ReadsAsItself(f, read) && ReadsAsItself(g, read)
  {
    if f == Empty {
    } else {
      AppendReads(f.next, g, read);
    }
  }

  lemma {:induction false} EraseReads(f: Forest, read: StartReader)
    requires ReadsAsItself(f, read)
    ensures ReadsAsItself(Erase(f), read)
  {
    if f == Empty {
    } else {
      EraseReads(f.next, read);
      match f
      case Element(_, _, _, _, children, _) => EraseReads(children, read);
      case Markup(content, next) => AppendReads(content, Erase(next), read);
      case Chars(_, _) =>
    }
  }

  /** The attributes of a projected link have names that are read as they are. */
  lemma {:induction false} RenamedIsNamed(attrs: seq<Attribute>)
    requires forall i :: 0 <= i < |attrs| ==> attrs[i].0 in LINK_ATTRIBUTES
    ensures Named(Renamed(attrs))
  {
    hide IsSpace;
    if attrs == [] {
    } else {
      assert forall i :: 0 <= i < |attrs[1..]| ==> attrs[1..][i] == attrs[i + 1];
      RenamedIsNamed(attrs[1..]);
      LinkAttributeNames(attrs[0].0);
      var name: string := if attrs[0].0 == "href" then MARKER else attrs[0].0;
      assert Renamed(attrs) == [(name, attrs[0].1)] + Renamed(attrs[1..]);
    }
  }

  lemma {:induction false} PlainName(name: string)
    requires name != "" && forall i :: 0 <= i < |name| ==> 'a' <= name[i] <= 'z' || name[i] == '-'
    ensures IsAttributeName(name)
  {
  }

  lemma {:induction false} LinkAttributeNames(name: string)
    requires name in LINK_ATTRIBUTES
    ensures IsAttributeName(name) && IsAttributeName(MARKER)
  {
    hide IsAttributeName;
    PlainName(MARKER);
    PlainName("class");
    PlainName("data-notable-ty");
    PlainName("href");
    PlainName("title");
  }

  lemma {:induction false} SpansRead(f: Forest, read: StartReader)
    requires Understands(read) && ReadsAsItself(f, read) && LinkError(f).None?
    ensures ReadsAsItself(Spans(f), read) && ReadsAsItself(Links(f), read)
  {
    hide Understands, CanonicalStart;
    if f == Empty {
    } else {
      SpansRead(f.next, read);
      if f.Element? {
        if IsLink(f.tag, f.attrs) {
          RenamedIsNamed(f.attrs);
          CanonicalReads("span", Renamed(f.attrs), read);
        } else {
          SpansRead(f.children, read);
          AppendReads(Links(f.children), Links(f.next), read);
        }
      }
    }
  }

  lemma {:induction false} ClassText(tag: string, name: string)
    requires Escape(name) == name
    ensures CanonicalStart(tag, [("class", Some(name))]) == "<" + tag + " class=\"" + name + "\">"
  {
    var attrs: seq<Attribute> := [("class", Some(name))];
    assert AttributesText(attrs[1..]) == "";
    hide Escape;
  }

  lemma {:induction false} EscapePlain(s: string)
    requires forall i :: 0 <= i < |s| ==> s[i] !in {'&', '<', '>', '"', '\''}
    ensures Escape(s) == s
  {
    if s == "" {
    } else {
      EscapePlain(s[1..]);
      assert s == [s[0]] + s[1..];
    }
  }

  lemma {:induction false} ClassReads(tag: string, name: string, read: StartReader)
    requires Understands(read) && IsTagName(tag)
    requires forall i :: 0 <= i < |name| ==> name[i] !in {'&', '<', '>', '"', '\''}
    ensures read("<" + tag + " class=\"" + name + "\">") == Some((tag, [("class", Some(name))]))
  {
    assert IsAttributeName("class");
    hide Understands, ReadStart, CanonicalStart, IsTagName;
    var attrs: seq<Attribute> := [("class", Some(name))];
    EscapePlain(name);
    ClassText(tag, name);
    CanonicalReads(tag, attrs, read);
  }

  /** The tags of a group and of its caption are read as they are. */
  lemma {:induction false} GroupTagsRead(read: StartReader)
    requires Understands(read)
    ensures read("<span class=\"" + LABEL_CLASS + "\">") == Some(("span", [("class", Some(LABEL_CLASS))]))
    ensures read("<div class=\"" + GROUP_CLASS + "\">") == Some(("div", [("class", Some(GROUP_CLASS))]))
  {
    hide Understands;
    ClassReads("span", LABEL_CLASS, read);
    ClassReads("div", GROUP_CLASS, read);
    assert "<" + "span" + " class=\"" == "<span class=\"" && "<" + "div" + " class=\"" == "<div class=\"";
  }

  lemma {:induction false} GroupReads(links: Forest, read: StartReader)
    requires Understands(read) && ReadsAsItself(links, read)
    ensures ReadsAsItself(Group(links), read)
  {
    GroupTagsRead(read);
    hide Understands, LABEL_CLASS, GROUP_CLASS;
    var caption := Group(links).children;
    assert ReadsAsItself(caption.children, read);
    assert ReadsAsItself(caption, read);
  }

  lemma {:induction false} DirectReads(f: Forest, tag: string, read: StartReader)
    requires ReadsAsItself(f, read) && DirectCount(f, tag) > 0
    ensures ReadsAsItself(Direct(f, tag).children, read)
  {
    if !(f.Element? && f.tag == tag) {
      DirectReads(f.next, tag, read);
    }
  }

  lemma {:induction false} ReplaceReads(f: Forest, tag: string, children: Forest, after: Forest, read: StartReader)
    requires ReadsAsItself(f, read) && DirectCount(f, tag) > 0
    requires ReadsAsItself(children, read) && ReadsAsItself(after, read)
    ensures ReadsAsItself(Replace(f, tag, children, after), read)
  {
    if f.Element? && f.tag == tag {
      AppendReads(after, f.next, read);
    } else {
      ReplaceReads(f.next, tag, children, after, read);
    }
  }

  lemma {:induction false} ToggleReads(items: Forest, read: StartReader)
    requires Understands(read) && ReadsAsItself(items, read) && ProjectToggle(items).Success?
    ensures ReadsAsItself(ProjectToggle(items).value.0, read)
  {
    ToggleCases(items);
    hide ProjectToggle, LinkError, ActiveHrefs, Understands, Spans, Links, Group;
    var content := SummaryContent(items);
    DirectReads(items, "summary", read);
    if ActiveHrefs(content) != [] {
      SpansRead(content, read);
      GroupReads(Links(content), read);
      ReplaceReads(items, "summary", Spans(content), Markup(Group(Links(content)), Empty), read);
    } else if HasDescriptionLabel(content) {
      var caption := Chars("Description", Empty);
      ReplaceReads(content, "span", caption, Empty, read);
      ReplaceReads(items, "summary", Replace(content, "span", caption, Empty), Empty, read);
    }
  }

  /**
   If every start tag of a document is read as the element it starts, so is every start tag of its
   projection: what is printed for a span, a group and a caption says what they are.
   */
  lemma {:induction false} ProjectionReadsAsItself(f: Forest, read: StartReader)
    requires Understands(read) && ReadsAsItself(f, read) && Project(f).Success?
    ensures ReadsAsItself(Project(f).value.0, read)
    decreases Size(f)
  {
    hide Understands, ProjectToggle;
    match f
    case Empty =>
    case Chars(_, next) => ProjectionReadsAsItself(next, read);
    case Markup(_, next) => ProjectionReadsAsItself(next, read);
    case Element(tag, attrs, _, _, children, next) =>
      ProjectionReadsAsItself(next, read);
      if IsToggle(tag, attrs) {
        SizeToggle(children);
        ToggleReads(children, read);
        ProjectionReadsAsItself(ProjectToggle(children).value.0, read);
      } else {
        ProjectionReadsAsItself(children, read);
      }
  }
}
