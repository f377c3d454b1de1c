/**
 The document parser and printer of the Rust reference builder.

 A document is a forest: a list of items, each a piece of text or an element. The parser
 keeps a stack of open elements and is fed the events an HTML tokenizer reports.
 */
module HtmlDocument {
  import opened Wrappers

  type Attribute = (string, Option<string>)

  /**
   A list of sibling items, first to last. `Markup` is a text item holding markup that is
   written into a document already printed: the forest it prints.
   */
  datatype Forest =
    | Empty
    | Chars(text: string, next: Forest)
    | Element(tag: string, attrs: seq<Attribute>, opening: string, closing: string, children: Forest, next: Forest)
    | Markup(content: Forest, next: Forest)

  const VOID_TAGS: set<string> :=
    {"area", "base", "br", "col", "embed", "hr", "img", "input", "link", "meta", "param", "source", "track", "wbr"}

  function EndTag(tag: string): string
  {
    "</" + tag + ">"
  }

  function Append(f: Forest, g: Forest): Forest
  {
    match f
    case Empty => g
    case Chars(text, next) => Chars(text, Append(next, g))
    case Element(tag, attrs, opening, closing, children, next) =>
      Element(tag, attrs, opening, closing, children, Append(next, g))
    case Markup(content, next) => Markup(content, Append(next, g))
  }

  lemma {:induction false} AppendAssociates(f: Forest, g: Forest, h: Forest)
    ensures Append(Append(f, g), h) == Append(f, Append(g, h))
  {
    if f == Empty {
    } else {
      AppendAssociates(f.next, g, h);
    }
  }

  lemma {:induction false} AppendEmpty(f: Forest)
    ensures Append(f, Empty) == f
  {
    if f == Empty {
    } else {
      AppendEmpty(f.next);
    }
  }

  /** The printed document. */
  function Render(f: Forest): string
  {
    match f
    case Empty => ""
    case Chars(text, next) => text + Render(next)
    case Element(_, _, opening, closing, children, next) => opening + Render(children) + closing + Render(next)
    case Markup(content, next) => Render(content) + Render(next)
  }

  // ---------------------------------------------------------------- tokenizer events

  /** What the tokenizer reports; a start tag comes with its source text. */
  datatype Event =
    | StartTag(tag: string, attrs: seq<Attribute>, text: string)
    | StartEndTag(tag: string, attrs: seq<Attribute>, text: string)
    | EndTagRead(tag: string)
    | Data(data: string)
    | EntityRef(name: string)
    | CharRef(name: string)
    | Comment(data: string)
    | Declaration(data: string)
    | UnknownDeclaration(data: string)
    | Instruction(data: string)

  /** What an event means to the parser. */
  datatype Token =
    | Open(tag: string, attrs: seq<Attribute>, text: string)
    | Leaf(tag: string, attrs: seq<Attribute>, text: string)
    | Close(tag: string)
    | Words(text: string)

  function Meaning(event: Event): Token
  {
    match event
    case StartTag(tag, attrs, text) => if tag in VOID_TAGS then Leaf(tag, attrs, text) else Open(tag, attrs, text)
    case StartEndTag(tag, attrs, text) => Leaf(tag, attrs, text)
    case EndTagRead(tag) => Close(tag)
    case Data(data) => Words(data)
    case EntityRef(name) => Words("&" + name + ";")
    case CharRef(name) => Words("&#" + name + ";")
    case Comment(data) => Words("<!--" + data + "-->")
    case Declaration(data) => Words("<!" + data + ">")
    case UnknownDeclaration(data) => Words("<![" + data + "]>")
    case Instruction(data) => Words("<?" + data + ">")
  }

  /** The text an event was read from; tags as the document has them, end tags without spaces. */
  ghost function SourceText(event: Event): string
  {
    match event
    case StartTag(_, _, text) => text
    case StartEndTag(_, _, text) => text
    case EndTagRead(tag) => "</" + tag + ">"
    case Data(data) => data
    case EntityRef(name) => "&" + name + ";"
    case CharRef(name) => "&#" + name + ";"
    case Comment(data) => "<!--" + data + "-->"
    case Declaration(data) => "<!" + data + ">"
    case UnknownDeclaration(data) => "<![" + data + "]>"
    case Instruction(data) => "<?" + data + ">"
  }

  ghost function Source(events: seq<Event>): string
  {
    if events == [] then "" else SourceText(events[0]) + Source(events[1..])
  }

  function Meanings(events: seq<Event>): seq<Token>
  {
    seq(|events|, i requires 0 <= i < |events| => Meaning(events[i]))
  }

  /** The source text of a token; end tags are written in one way only. */
  function TokenText(token: Token): string
  {
    match token
    case Open(_, _, text) => text
    case Leaf(_, _, text) => text
    case Close(tag) => EndTag(tag)
    case Words(text) => text
  }

  function Text(tokens: seq<Token>): string
  {
    if tokens == [] then "" else TokenText(tokens[0]) + Text(tokens[1..])
  }

  /** The tokens a forest prints as. */
  function Flatten(f: Forest): seq<Token>
  {
    match f
    case Empty => []
    case Chars(text, next) => [Words(text)] + Flatten(next)
    case Element(tag, attrs, opening, closing, children, next) =>
      if closing == "" then [Leaf(tag, attrs, opening)] + Flatten(next)
      else [Open(tag, attrs, opening)] + Flatten(children) + [Close(tag)] + Flatten(next)
    case Markup(content, next) => Flatten(content) + Flatten(next)
  }

  /** A forest as the parser builds it: leaves have no closing tag, and void tags are leaves. */
  predicate WellFormed(f: Forest)
  {
    match f
    case Empty => true
    case Chars(_, next) => WellFormed(next)
    case Element(tag, _, _, closing, children, next) =>
      && (if closing == "" then children == Empty
          else closing == EndTag(tag) && tag !in VOID_TAGS && WellFormed(children))
      && WellFormed(next)
    case Markup(_, _) => false
  }

  // ---------------------------------------------------------------- the stack parser

  /** An open element and the items read into it so far. */
  datatype Frame = Frame(tag: string, attrs: seq<Attribute>, opening: string, items: Forest)

  datatype ParseError = Mismatched(closing: string, current: string) | Unclosed(tag: string)

  const DOCUMENT := Frame("#document", [], "", Empty)

  function Added(stack: seq<Frame>, items: Forest): (r: seq<Frame>)
    requires stack != []
    ensures |r| == |stack|
  {
    var top := stack[|stack| - 1];
    stack[|stack| - 1 := top.(items := Append(top.items, items))]
  }

  /** One step of the parser; the first frame is the document itself. */
  function Feed(stack: seq<Frame>, token: Token): (r: Result<seq<Frame>, ParseError>)
    requires stack != []
    ensures r.Success? ==> r.value != []
  {
    match token
    case Open(tag, attrs, text) => Success(stack + [Frame(tag, attrs, text, Empty)])
    case Leaf(tag, attrs, text) => Success(Added(stack, Element(tag, attrs, text, "", Empty, Empty)))
    case Words(text) => Success(Added(stack, Chars(text, Empty)))
    case Close(tag) =>
      var top := stack[|stack| - 1];
      if |stack| == 1 || top.tag != tag then Failure(Mismatched(tag, top.tag))
      else Success(Added(stack[..|stack| - 1], Element(tag, top.attrs, top.opening, EndTag(tag), top.items, Empty)))
  }

  function FeedAll(stack: seq<Frame>, tokens: seq<Token>): (r: Result<seq<Frame>, ParseError>)
    requires stack != []
    ensures r.Success? ==> r.value != []
    decreases |tokens|
  {
    if tokens == [] then Success(stack)
    else
      var r := Feed(stack, tokens[0]);
      if r.Failure? then r else FeedAll(r.value, tokens[1..])
  }

  /** The document the tokens stand for; every element must be closed at the end. */
  function Parse(tokens: seq<Token>): Result<Forest, ParseError>
  {
    var r := FeedAll([DOCUMENT], tokens);
    if r.Failure? then Failure(r.error)
    else if |r.value| != 1 then Failure(Unclosed(r.value[|r.value| - 1].tag))
    else Success(r.value[0].items)
  }

  class DocumentParser {
    var stack: seq<Frame>

    constructor ()
      ensures stack == [DOCUMENT]
    {
      stack := [DOCUMENT];
    }

    method AppendItem(item: Forest)
      requires stack != []
      modifies this
      ensures stack == Added(old(stack), item)
    {
      var top := stack[|stack| - 1];
      stack := stack[|stack| - 1 := top.(items := Append(top.items, item))];
    }

    method HandleStartTag(tag: string, attrs: seq<Attribute>, text: string)
      requires stack != []
      modifies this
      ensures Success(stack) == Feed(old(stack), Meaning(StartTag(tag, attrs, text)))
    {
      if tag in VOID_TAGS {
        AppendItem(Element(tag, attrs, text, "", Empty, Empty));
      } else {
        stack := stack + [Frame(tag, attrs, text, Empty)];
      }
    }

    method HandleEndTag(tag: string) returns (error: Option<ParseError>)
      requires stack != []
      modifies this
      ensures if error.None? then Success(stack) == Feed(old(stack), Close(tag))
              else stack == old(stack) && Failure(error.value) == Feed(old(stack), Close(tag))
    {
      var top := stack[|stack| - 1];
      if |stack| == 1 || top.tag != tag {
        return Some(Mismatched(tag, top.tag));
      }
      stack := stack[..|stack| - 1];
      AppendItem(Element(tag, top.attrs, top.opening, EndTag(tag), top.items, Empty));
      return None;
    }

    method Handle(event: Event) returns (error: Option<ParseError>)
      requires stack != []
      modifies this
      ensures if error.None? then Success(stack) == Feed(old(stack), Meaning(event))
              else Failure(error.value) == Feed(old(stack), Meaning(event))
    {
      error := None;
      match event
      case StartTag(tag, attrs, text) => HandleStartTag(tag, attrs, text);
      case StartEndTag(tag, attrs, text) => AppendItem(Element(tag, attrs, text, "", Empty, Empty));
      case EndTagRead(tag) => error := HandleEndTag(tag);
      case _ => AppendItem(Chars(Meaning(event).text, Empty));
    }
  }

  method ParseDocument(events: seq<Event>) returns (result: Result<Forest, ParseError>)
    ensures result == Parse(Meanings(events))
  {
    var parser := new DocumentParser();
    ghost var tokens := Meanings(events);
    for i := 0 to |events|
      invariant parser.stack != []
      invariant FeedAll([DOCUMENT], tokens) == FeedAll(parser.stack, tokens[i..])
    {
      assert tokens[i..][0] == Meaning(events[i]) && tokens[i..][1..] == tokens[i + 1..];
      var error := parser.Handle(events[i]);
      if error.Some? {
        return Failure(error.value);
      }
    }
    if |parser.stack| != 1 {
      return Failure(Unclosed(parser.stack[|parser.stack| - 1].tag));
    }
    return Success(parser.stack[0].items);
  }

  // ---------------------------------------------------------------- parsing undoes printing

  /** The tokens of the item at the head of a list. */
  ghost function FirstTokens(f: Forest): seq<Token>
    requires f != Empty
  {
    match f
    case Chars(text, _) => [Words(text)]
    case Element(tag, attrs, opening, closing, children, _) =>
      if closing == "" then [Leaf(tag, attrs, opening)]
      else [Open(tag, attrs, opening)] + Flatten(children) + [Close(tag)]
    case Markup(content, _) => Flatten(content)
  }

  lemma {:induction false} FlattenFirst(f: Forest)
    requires f != Empty
    ensures Flatten(f) == FirstTokens(f) + Flatten(f.next)
  {
  }

  lemma {:induction false} AppendFirst(f: Forest, g: Forest)
    requires f != Empty
    ensures Append(f, g) != Empty && Append(f, g).next == Append(f.next, g)
    ensures FirstTokens(Append(f, g)) == FirstTokens(f)
  {
    hide Flatten;
  }

  lemma {:induction false} FlattenEmpty(g: Forest)
    ensures Append(Empty, g) == g && Flatten(Empty) + Flatten(g) == Flatten(g)
  {
    assert Flatten(Empty) == [];
  }

  lemma {:induction false} FlattenAppend(f: Forest, g: Forest)
    ensures Flatten(Append(f, g)) == Flatten(f) + Flatten(g)
  {
    hide Flatten, FirstTokens, Append;
    if f == Empty {
      FlattenEmpty(g);
    } else {
      FlattenAppend(f.next, g);
      AppendFirst(f, g);
      FlattenFirst(f);
      FlattenFirst(Append(f, g));
      assert Flatten(Append(f, g)) == FirstTokens(f) + (Flatten(f.next) + Flatten(g));
    }
  }

  lemma {:induction false} WellFormedAppend(f: Forest, g: Forest)
    ensures WellFormed(Append(f, g)) <==> WellFormed(f) && WellFormed(g)
  {
    if f == Empty {
    } else {
      WellFormedAppend(f.next, g);
    }
  }

  lemma {:induction false} FeedAllConcat(stack: seq<Frame>, a: seq<Token>, b: seq<Token>)
    requires stack != []
    ensures var r := FeedAll(stack, a);
            FeedAll(stack, a + b) == if r.Failure? then r else FeedAll(r.value, b)
    decreases |a|
  {
    if a == [] {
      assert a + b == b;
    } else {
      assert (a + b)[1..] == a[1..] + b;
      var r := Feed(stack, a[0]);
      if r.Success? {
        FeedAllConcat(r.value, a[1..], b);
      }
    }
  }

  /** Reading back what a well-formed forest prints appends exactly that forest. */
  lemma {:induction false} FeedFlatten(stack: seq<Frame>, f: Forest)
    requires stack != [] && WellFormed(f)
    ensures FeedAll(stack, Flatten(f)) == Success(Added(stack, f))
    decreases f, 1
  {
    match f
    case Empty =>
      AppendEmpty(stack[|stack| - 1].items);
      assert Added(stack, Empty) == stack;
    case Chars(text, next) =>
      FeedFirst(stack, f, Words(text), Chars(text, Empty), next);
    case Element(tag, attrs, opening, closing, children, next) =>
      if closing == "" {
        FeedFirst(stack, f, Leaf(tag, attrs, opening), Element(tag, attrs, opening, "", Empty, Empty), next);
      } else {
        FeedElement(stack, f);
      }
  }

  lemma {:induction false} AddedTwice(stack: seq<Frame>, f: Forest, g: Forest)
    requires stack != []
    ensures Added(Added(stack, f), g) == Added(stack, Append(f, g))
  {
    AppendAssociates(stack[|stack| - 1].items, f, g);
  }

  lemma {:induction false} FeedFirst(stack: seq<Frame>, f: Forest, token: Token, first: Forest, next: Forest)
    requires stack != [] && WellFormed(f) && WellFormed(next) && next < f
    requires f == Append(first, next) && Flatten(f) == [token] + Flatten(next)
    requires Feed(stack, token) == Success(Added(stack, first))
    ensures FeedAll(stack, Flatten(f)) == Success(Added(stack, f))
    decreases f, 0
  {
    FeedFlatten(Added(stack, first), next);
    AddedTwice(stack, first, next);
    assert Flatten(f)[1..] == Flatten(next);
  }

  /** Closing an element whose children have been read appends the element. */
  lemma {:induction false} FeedClose(stack: seq<Frame>, f: Forest)
    requires stack != [] && WellFormed(f) && f.Element? && f.closing != ""
    ensures var inside := stack + [Frame(f.tag, f.attrs, f.opening, Empty)];
            && Feed(stack, Open(f.tag, f.attrs, f.opening)) == Success(inside)
            && Feed(Added(inside, f.children), Close(f.tag))
               == Success(Added(stack, Element(f.tag, f.attrs, f.opening, f.closing, f.children, Empty)))
  {
    var inside := stack + [Frame(f.tag, f.attrs, f.opening, Empty)];
    assert Added(inside, f.children)[..|stack|] == stack;
  }

  /** Feeding one token and then others. */
  lemma {:induction false} FeedNext(stack: seq<Frame>, token: Token, tokens: seq<Token>)
    requires stack != [] && Feed(stack, token).Success?
    ensures FeedAll(stack, [token] + tokens) == FeedAll(Feed(stack, token).value, tokens)
  {
    assert ([token] + tokens)[1..] == tokens;
  }

  lemma {:induction false} FeedElement(stack: seq<Frame>, f: Forest)
    requires stack != [] && WellFormed(f) && f.Element? && f.closing != ""
    ensures FeedAll(stack, Flatten(f)) == Success(Added(stack, f))
    decreases f, 0
  {
    var open, close := Open(f.tag, f.attrs, f.opening), Close(f.tag);
    var inside := stack + [Frame(f.tag, f.attrs, f.opening, Empty)];
    var closed := Element(f.tag, f.attrs, f.opening, f.closing, f.children, Empty);
    assert Flatten(f) == [open] + (Flatten(f.children) + ([close] + Flatten(f.next)));
    assert f == Append(closed, f.next);
    assert WellFormed(f.children) && WellFormed(f.next);
    FeedClose(stack, f);
    hide WellFormed, Flatten, Feed, FeedAll, Added, Append;
    FeedFlatten(inside, f.children);
    FeedFlatten(Added(stack, closed), f.next);
    AddedTwice(stack, closed, f.next);
    FeedNext(stack, open, Flatten(f.children) + ([close] + Flatten(f.next)));
    FeedAllConcat(inside, Flatten(f.children), [close] + Flatten(f.next));
    FeedNext(Added(inside, f.children), close, Flatten(f.next));
  }

  /** Parsing undoes printing. */
  lemma {:induction false} ParseFlatten(f: Forest)
    requires WellFormed(f)
    ensures Parse(Flatten(f)) == Success(f)
  {
    FeedFlatten([DOCUMENT], f);
  }

  // ---------------------------------------------------------------- printing undoes parsing

  /** Tokens as events give them: a void tag is never opened. */
  predicate Readable(tokens: seq<Token>)
  {
    forall i :: 0 <= i < |tokens| && tokens[i].Open? ==> tokens[i].tag !in VOID_TAGS
  }

  /** The tokens read so far, as the stack holds them. */
  ghost function StackTokens(stack: seq<Frame>): seq<Token>
    requires stack != []
  {
    var top := stack[|stack| - 1];
    if |stack| == 1 then Flatten(top.items)
    else StackTokens(stack[..|stack| - 1]) + ([Open(top.tag, top.attrs, top.opening)] + Flatten(top.items))
  }

  ghost predicate StackWellFormed(stack: seq<Frame>)
  {
    && (forall i :: 0 <= i < |stack| ==> WellFormed(stack[i].items))
    && forall i :: 0 < i < |stack| ==> stack[i].tag !in VOID_TAGS
  }

  lemma {:induction false} AddedTokens(stack: seq<Frame>, f: Forest)
    requires stack != [] && StackWellFormed(stack) && WellFormed(f)
    ensures StackTokens(Added(stack, f)) == StackTokens(stack) + Flatten(f)
    ensures StackWellFormed(Added(stack, f))
  {
    var top := stack[|stack| - 1];
    FlattenAppend(top.items, f);
    WellFormedAppend(top.items, f);
    assert Added(stack, f)[..|stack| - 1] == stack[..|stack| - 1];
  }

  lemma {:induction false} FeedKeepsTokens(stack: seq<Frame>, token: Token)
    requires stack != [] && StackWellFormed(stack) && Readable([token]) && Feed(stack, token).Success?
    ensures StackTokens(Feed(stack, token).value) == StackTokens(stack) + [token]
    ensures StackWellFormed(Feed(stack, token).value)
  {
    var r := Feed(stack, token).value;
    match token
    case Open(tag, attrs, text) =>
      assert [token][0] == token && r[..|stack|] == stack;
    case Leaf(tag, attrs, text) =>
      AddedTokens(stack, Element(tag, attrs, text, "", Empty, Empty));
    case Words(text) =>
      AddedTokens(stack, Chars(text, Empty));
    case Close(tag) =>
      var top, below := stack[|stack| - 1], stack[..|stack| - 1];
      var closed := Element(tag, top.attrs, top.opening, EndTag(tag), top.items, Empty);
      AddedTokens(below, closed);
      assert Flatten(closed) == [Open(top.tag, top.attrs, top.opening)] + Flatten(top.items) + [token];
  }

  lemma {:induction false} FeedAllKeepsTokens(stack: seq<Frame>, tokens: seq<Token>)
    requires stack != [] && StackWellFormed(stack) && Readable(tokens) && FeedAll(stack, tokens).Success?
    ensures StackTokens(FeedAll(stack, tokens).value) == StackTokens(stack) + tokens
    ensures StackWellFormed(FeedAll(stack, tokens).value)
    decreases |tokens|
  {
    assert tokens != [] ==> Readable([tokens[0]]) && Readable(tokens[1..]);
    hide Readable, StackTokens, StackWellFormed, Feed, VOID_TAGS;
    if tokens == [] {
      assert StackTokens(stack) + tokens == StackTokens(stack);
    } else {
      var next := Feed(stack, tokens[0]).value;
      FeedKeepsTokens(stack, tokens[0]);
      FeedAllKeepsTokens(next, tokens[1..]);
      assert tokens == [tokens[0]] + tokens[1..];
      assert StackTokens(stack) + tokens == StackTokens(next) + tokens[1..];
    }
  }

  /** Printing undoes parsing: a parsed document has exactly the tokens that were read. */
  lemma {:induction false} FlattenParse(tokens: seq<Token>)
    requires Readable(tokens) && Parse(tokens).Success?
    ensures WellFormed(Parse(tokens).value) && Flatten(Parse(tokens).value) == tokens
  {
    assert StackTokens([DOCUMENT]) == [];
    FeedAllKeepsTokens([DOCUMENT], tokens);
  }

  /** The parser accepts exactly the token sequences that some well-formed document prints. */
  lemma {:induction false} ParseAcceptsWellNested(tokens: seq<Token>)
    requires Readable(tokens)
    ensures Parse(tokens).Success? <==> exists f :: WellFormed(f) && Flatten(f) == tokens
  {
    if Parse(tokens).Success? {
      FlattenParse(tokens);
    }
    if f :| WellFormed(f) && Flatten(f) == tokens {
      ParseFlatten(f);
    }
  }

  lemma {:induction false} TextConcat(a: seq<Token>, b: seq<Token>)
    ensures Text(a + b) == Text(a) + Text(b)
  {
    if a == [] {
      assert a + b == b;
    } else {
      assert (a + b)[1..] == a[1..] + b;
      TextConcat(a[1..], b);
    }
  }

  lemma {:induction false} RenderIsText(f: Forest)
    requires WellFormed(f)
    ensures Render(f) == Text(Flatten(f))
  {
    match f
    case Empty =>
    case Chars(text, next) =>
      RenderIsText(next);
      TextConcat([Words(text)], Flatten(next));
    case Element(tag, attrs, opening, closing, children, next) =>
      RenderIsText(next);
      if closing == "" {
        TextConcat([Leaf(tag, attrs, opening)], Flatten(next));
      } else {
        RenderIsText(children);
        var open, close := [Open(tag, attrs, opening)], [Close(tag)];
        TextConcat(open, Flatten(children));
        TextConcat(open + Flatten(children), close);
        TextConcat(open + Flatten(children) + close, Flatten(next));
      }
  }

  lemma {:induction false} MeaningIsSource(event: Event)
    ensures TokenText(Meaning(event)) == SourceText(event)
  {
    hide VOID_TAGS;
  }

  lemma {:induction false} TextIsSource(events: seq<Event>)
    ensures Text(Meanings(events)) == Source(events)
  {
    if events == [] {
    } else {
      MeaningIsSource(events[0]);
      TextIsSource(events[1..]);
      hide Meaning, SourceText, TokenText;
      assert Meanings(events)[1..] == Meanings(events[1..]);
    }
  }

  /** What the parser accepts prints back as it was read, end tags in their one spelling. */
  lemma {:induction false} RenderParse(events: seq<Event>)
    requires Parse(Meanings(events)).Success?
    ensures Render(Parse(Meanings(events)).value) == Source(events)
  {
    FlattenParse(Meanings(events));
    RenderIsText(Parse(Meanings(events)).value);
    TextIsSource(events);
  }
}
