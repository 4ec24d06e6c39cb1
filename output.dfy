/** The printers of include/xml/output.hpp: one line of text per token, and
    the indented rendering of an element with its attributes, content and
    children. Writing to a stream is string concatenation here. */
module Output {
  import opened Common
  import opened Lexer
  import opened Parser

  // ---------------------------------------------------------------------
  // Tokens
  // ---------------------------------------------------------------------

  /** The text `operator<<` writes for a token. */
  function TokenText(t: Token): string {
    match t
    case StartTagBegin(name) => "StartTagBegin name: " + name
    case StartTagEnd => "StartTagEnd"
    case Attribute(key, value) => "Attribute: key: " + key + " value: " + value
    case Content(text) => "Content " + text
    case EndTag(name) => "EndTag name: " + name
    case CloseTag => "CloseTag"
  }

  /** The name of a token's kind, as the printers spell it. */
  function KindName(t: Token): string {
    if t.StartTagBegin? then "StartTagBegin"
    else if t.StartTagEnd? then "StartTagEnd"
    else if t.Attribute? then "Attribute"
    else if t.Content? then "Content"
    else if t.EndTag? then "EndTag"
    else "CloseTag"
  }

  lemma PrefixOf(a: string, b: string, c: string)
    requires a <= b
    ensures a <= b + c
  {
    assert (b + c)[..|a|] == b[..|a|];
  }

  lemma EndsWith(b: string, c: string)
    ensures (b + c)[|b + c| - |c|..] == c
  {
  }

  /** Each printed token starts with the name of its kind and ends with its
      name, content or value. */
  lemma TokenTextShape(t: Token)
    ensures KindName(t) <= TokenText(t)
    ensures t.StartTagBegin? || t.EndTag? ==> TokenText(t)[|TokenText(t)| - |t.name|..] == t.name
    ensures t.Content? ==> TokenText(t)[|TokenText(t)| - |t.content|..] == t.content
    ensures t.Attribute? ==> TokenText(t)[|TokenText(t)| - |t.value|..] == t.value
  {
    match t
    case StartTagBegin(name) =>
      PrefixOf("StartTagBegin", "StartTagBegin name: ", name);
      EndsWith("StartTagBegin name: ", name);
    case Attribute(key, value) =>
      PrefixOf("Attribute", "Attribute: key: ", key);
      PrefixOf("Attribute", "Attribute: key: " + key, " value: ");
      PrefixOf("Attribute", "Attribute: key: " + key + " value: ", value);
      EndsWith("Attribute: key: " + key + " value: ", value);
    case Content(text) =>
      PrefixOf("Content", "Content ", text);
      EndsWith("Content ", text);
    case EndTag(name) =>
      PrefixOf("EndTag", "EndTag name: ", name);
      EndsWith("EndTag name: ", name);
    case _ =>
  }

  // ---------------------------------------------------------------------
  // Elements
  // ---------------------------------------------------------------------

  function Indent(n: nat): (r: string)
    ensures |r| == n && forall i :: 0 <= i < n ==> r[i] == ' '
  {
    seq(n, _ => ' ')
  }

  /** ` key="value"` */
  function RenderAttribute(a: XmlAttribute): string {
    [' '] + (a.key + (['=', '"'] + (a.value + ['"'])))
  }

  /** The attributes one after the other, in stored order. */
  function RenderAttributes(attributes: seq<XmlAttribute>): string {
    if attributes == [] then []
    else RenderAttribute(attributes[0]) + RenderAttributes(attributes[1..])
  }

  /** The content on a line of its own, indented twice as deep as the tags;
      nothing at all for empty content. */
  function ContentLine(level: nat, content: string): string {
    if content == [] then [] else Indent(4 * level) + (content + ['\n'])
  }

  /** The opening line: indentation, '<', the name, the attributes, '>' and
      a newline, then the content line. */
  function OpenPart(e: XmlElement): string {
    Indent(2 * e.level) + (['<'] + (e.name + (RenderAttributes(e.attributes) +
      (['>', '\n'] + ContentLine(e.level, e.content)))))
  }

  /** The closing tag, at the same indentation as the opening one. */
  function ClosePart(e: XmlElement): string {
    Indent(2 * e.level) + (['<', '/'] + (e.name + ['>']))
  }

  /** Children always come later in the arena than their parent, which
      makes the rendering recursion well founded. */
  predicate Ordered(arena: seq<XmlElement>) {
    forall p, j :: 0 <= p < |arena| && 0 <= j < |arena[p].children| ==>
      p < arena[p].children[j] < |arena|
  }

  /** The text of element `x` and, recursively, its subtree. */
  function RenderElement(arena: seq<XmlElement>, x: nat): string
    requires Ordered(arena) && x < |arena|
    decreases |arena| - x, 1
  {
    OpenPart(arena[x]) + (RenderChildren(arena, x, arena[x].children) + ClosePart(arena[x]))
  }

  /** Each child of `x` in `kids`, in order, each followed by a newline. */
  function RenderChildren(arena: seq<XmlElement>, x: nat, kids: seq<nat>): string
    requires Ordered(arena) && x < |arena|
    requires forall i :: 0 <= i < |kids| ==> x < kids[i] < |arena|
    decreases |arena| - x, 0, |kids|
  {
    if kids == [] then []
    else RenderElement(arena, kids[0]) + (['\n'] + RenderChildren(arena, x, kids[1..]))
  }

  /** A document prints its last element only. */
  function RenderDoc(arena: seq<XmlElement>, doc: seq<nat>): string
    requires Ordered(arena) && doc != [] && InArena(arena, doc)
  {
    RenderElement(arena, doc[|doc| - 1])
  }

  /** An element's text starts with its indentation, '<' and its name, and
      ends with its closing tag at the same indentation; the content line
      is there exactly when the content is not empty. */
  lemma RenderElementShape(arena: seq<XmlElement>, x: nat)
    requires Ordered(arena) && x < |arena|
    ensures var r := RenderElement(arena, x); var e := arena[x];
      var head := Indent(2 * e.level) + (['<'] + e.name);
      |head| + |ClosePart(e)| <= |r| && r[..|head|] == head && r[|r| - |ClosePart(e)|..] == ClosePart(e)
    ensures (ContentLine(arena[x].level, arena[x].content) == []) <==> (arena[x].content == [])
  {
    var e := arena[x];
    var head := Indent(2 * e.level) + (['<'] + e.name);
    var body := RenderSplit(arena, x);
    Ends(head, body + ClosePart(e));
    Ends(head + body, ClosePart(e));
    if e.content != [] {
      assert |ContentLine(e.level, e.content)| > 0;
    }
  }

  /** The text of an element around what follows its name. */
  lemma RenderSplit(arena: seq<XmlElement>, x: nat) returns (body: string)
    requires Ordered(arena) && x < |arena|
    ensures var e := arena[x]; var head := Indent(2 * e.level) + (['<'] + e.name);
      RenderElement(arena, x) == head + (body + ClosePart(e)) &&
      RenderElement(arena, x) == (head + body) + ClosePart(e)
  {
    var e := arena[x];
    var head := Indent(2 * e.level) + (['<'] + e.name);
    var tail := RenderAttributes(e.attributes) + (['>', '\n'] + ContentLine(e.level, e.content));
    body := tail + RenderChildren(arena, x, e.children);
    assert OpenPart(e) == head + tail;
    assert RenderElement(arena, x) == head + (body + ClosePart(e));
  }

  lemma Ends(a: string, b: string)
    ensures (a + b)[..|a|] == a && (a + b)[|a|..] == b
  {
  }

  /** The parser's trees can be printed: every child is a later element. */
  lemma ParsedOrdered(ts: seq<Token>)
    requires Parsable(ts)
    ensures Ordered(Run(ts).arena)
  {
    RunKeeps(ts);
  }

  // ---------------------------------------------------------------------
  // Reading the rendering back
  // ---------------------------------------------------------------------

  /** What the tokenizer can read back unchanged: a name of letters, keys
      that start with a letter and hold no '=', values without '"', and
      content of digits, signs, points and whitespace. */
  predicate ReadableAttribute(a: XmlAttribute) {
    a.key != [] && IsAlpha(a.key[0]) && '=' !in a.key && '"' !in a.value
  }

  predicate ReadableElement(e: XmlElement) {
    e.name != [] && AllAlpha(e.name) && Quiet(e.content) &&
    forall i :: 0 <= i < |e.attributes| ==> ReadableAttribute(e.attributes[i])
  }

  predicate Readable(arena: seq<XmlElement>) {
    forall x :: 0 <= x < |arena| ==> ReadableElement(arena[x])
  }

  function AttributeTokens(attributes: seq<XmlAttribute>): seq<Token> {
    if attributes == [] then []
    else [Attribute(attributes[0].key, attributes[0].value)] + AttributeTokens(attributes[1..])
  }

  /** The tokens of element `x`'s subtree, as the parser expects them:
      start tag, attributes, the end of the start tag, the children, the
      end tag. */
  function ElementTokens(arena: seq<XmlElement>, x: nat): seq<Token>
    requires Ordered(arena) && x < |arena|
    decreases |arena| - x, 1
  {
    [StartTagBegin(arena[x].name)] + AttributeTokens(arena[x].attributes) + [StartTagEnd] +
    ChildrenTokens(arena, x, arena[x].children) + [EndTag(arena[x].name)]
  }

  function ChildrenTokens(arena: seq<XmlElement>, x: nat, kids: seq<nat>): seq<Token>
    requires Ordered(arena) && x < |arena|
    requires forall i :: 0 <= i < |kids| ==> x < kids[i] < |arena|
    decreases |arena| - x, 0, |kids|
  {
    if kids == [] then []
    else ElementTokens(arena, kids[0]) + ChildrenTokens(arena, x, kids[1..])
  }

  lemma QuietIndent(n: nat)
    ensures Quiet(Indent(n))
  {
  }

  lemma {:induction false} AttributesLex(attributes: seq<XmlAttribute>, t: seq<char>)
    requires forall i :: 0 <= i < |attributes| ==> ReadableAttribute(attributes[i])
    ensures Lex(RenderAttributes(attributes) + t) == Prepend(AttributeTokens(attributes), Lex(t))
  {
    if attributes == [] {
      assert RenderAttributes(attributes) + t == t;
      if Lex(t).Ok? {
        assert [] + Lex(t).value == Lex(t).value;
      }
    } else {
      var a := attributes[0];
      var more := RenderAttributes(attributes[1..]) + t;
      assert RenderAttributes(attributes) + t ==
             [' '] + (a.key + (['=', '"'] + (a.value + (['"'] + more))));
      assert ReadableAttribute(a);
      LexSpaceHead(' ', a.key + (['=', '"'] + (a.value + (['"'] + more))));
      LexAttribute(a.key, a.value, more);
      AttributesLex(attributes[1..], t);
      PrependPrepend([Attribute(a.key, a.value)], AttributeTokens(attributes[1..]), Lex(t));
    }
  }

  /** The content line holds nothing the tokenizer acts on. */
  lemma QuietContentLine(e: XmlElement)
    requires Quiet(e.content)
    ensures Quiet(['\n'] + ContentLine(e.level, e.content))
  {
    if e.content != [] {
      QuietIndent(4 * e.level);
      var w := ['\n'] + ContentLine(e.level, e.content);
      forall i | 0 <= i < |w| ensures IsSpace(w[i]) || Inert(w[i]) {
        if i == 0 || i == |w| - 1 {
        } else if i <= 4 * e.level {
          assert w[i] == Indent(4 * e.level)[i - 1];
        } else {
          assert w[i] == e.content[i - 1 - 4 * e.level];
        }
      }
    }
  }

  /** What follows the name in the opening line: the attributes, then '>'
      and a newline, then the quiet content line. */
  lemma AfterNameLex(e: XmlElement, t: seq<char>)
    requires ReadableElement(e)
    ensures Lex(RenderAttributes(e.attributes) + (['>'] + ((['\n'] + ContentLine(e.level, e.content)) + t)))
            == Prepend(AttributeTokens(e.attributes) + [StartTagEnd], Lex(t))
  {
    var tail := (['\n'] + ContentLine(e.level, e.content)) + t;
    AttributesLex(e.attributes, ['>'] + tail);
    LexGreaterPlain(tail);
    QuietContentLine(e);
    LexQuiet(['\n'] + ContentLine(e.level, e.content), t);
    PrependPrepend(AttributeTokens(e.attributes), [StartTagEnd], Lex(t));
  }

  /** The opening line reads back as the start tag, the attributes and the
      end of the start tag; the content line reads back as nothing, since
      the tokenizer only takes content that directly follows '>'. */
  lemma OpenLex(e: XmlElement, t: seq<char>)
    requires ReadableElement(e)
    ensures Lex(OpenPart(e) + t) ==
            Prepend([StartTagBegin(e.name)] + AttributeTokens(e.attributes) + [StartTagEnd], Lex(t))
  {
    var afterName := AfterName(e, t);
    OpenPartSplit(e, t);
    QuietIndent(2 * e.level);
    LexQuiet(Indent(2 * e.level), ['<'] + (e.name + afterName));
    LexOpenTag(e.name, afterName);
    AfterNameLex(e, t);
    PrependPrepend([StartTagBegin(e.name)], AttributeTokens(e.attributes) + [StartTagEnd], Lex(t));
    assert [StartTagBegin(e.name)] + (AttributeTokens(e.attributes) + [StartTagEnd]) ==
           [StartTagBegin(e.name)] + AttributeTokens(e.attributes) + [StartTagEnd];
  }

  /** The rendering of an opening line, from just after the name on. */
  function AfterName(e: XmlElement, t: seq<char>): seq<char> {
    RenderAttributes(e.attributes) + (['>'] + ((['\n'] + ContentLine(e.level, e.content)) + t))
  }

  /** The opening line is the indent, '<', the name and what follows it,
      which starts with a blank or with '>'. */
  lemma OpenPartSplit(e: XmlElement, t: seq<char>)
    ensures OpenPart(e) + t == Indent(2 * e.level) + (['<'] + (e.name + AfterName(e, t)))
    ensures AfterName(e, t) != [] && !IsAlpha(AfterName(e, t)[0])
  {
    var c := ContentLine(e.level, e.content);
    var r := RenderAttributes(e.attributes);
    assert (['>', '\n'] + c) + t == ['>'] + ((['\n'] + c) + t);
    assert (r + (['>', '\n'] + c)) + t == r + ((['>', '\n'] + c) + t);
    assert AfterName(e, t)[0] == ' ' || AfterName(e, t)[0] == '>';
  }

  /** The closing tag reads back as an `EndTag` with the element's name. */
  lemma CloseLex(e: XmlElement, t: seq<char>)
    requires AllAlpha(e.name)
    ensures Lex(ClosePart(e) + t) == Prepend([EndTag(e.name)], Lex(t))
  {
    var u := ['<'] + (['/'] + (e.name + (['>'] + t)));
    assert ClosePart(e) + t == Indent(2 * e.level) + u;
    QuietIndent(2 * e.level);
    LexQuiet(Indent(2 * e.level), u);
    LexEndTag(e.name, '>', t);
  }

  /** Reading a rendered subtree gives back its tokens, except the content,
      which the tokenizer does not pick up on a line of its own. */
  lemma {:induction false} RenderLex(arena: seq<XmlElement>, x: nat, t: seq<char>)
    requires Ordered(arena) && Readable(arena) && x < |arena|
    ensures Lex(RenderElement(arena, x) + t) == Prepend(ElementTokens(arena, x), Lex(t))
    decreases |arena| - x, 1
  {
    var e := arena[x];
    var kids := RenderChildren(arena, x, e.children);
    assert ReadableElement(e);
    assert RenderElement(arena, x) + t == OpenPart(e) + (kids + (ClosePart(e) + t));
    OpenLex(e, kids + (ClosePart(e) + t));
    ChildrenLex(arena, x, e.children, ClosePart(e) + t);
    CloseLex(e, t);
    var head := [StartTagBegin(e.name)] + AttributeTokens(e.attributes) + [StartTagEnd];
    var middle := ChildrenTokens(arena, x, e.children);
    PrependPrepend(middle, [EndTag(e.name)], Lex(t));
    PrependPrepend(head, middle + [EndTag(e.name)], Lex(t));
    assert ElementTokens(arena, x) == head + (middle + [EndTag(e.name)]);
  }

  lemma {:induction false} ChildrenLex(arena: seq<XmlElement>, x: nat, kids: seq<nat>, t: seq<char>)
    requires Ordered(arena) && Readable(arena) && x < |arena|
    requires forall i :: 0 <= i < |kids| ==> x < kids[i] < |arena|
    ensures Lex(RenderChildren(arena, x, kids) + t) == Prepend(ChildrenTokens(arena, x, kids), Lex(t))
    decreases |arena| - x, 0, |kids|
  {
    if kids == [] {
      assert RenderChildren(arena, x, kids) + t == t;
      if Lex(t).Ok? {
        assert [] + Lex(t).value == Lex(t).value;
      }
    } else {
      var more := RenderChildren(arena, x, kids[1..]) + t;
      assert RenderChildren(arena, x, kids) + t == RenderElement(arena, kids[0]) + (['\n'] + more);
      RenderLex(arena, kids[0], ['\n'] + more);
      LexSpaceHead('\n', more);
      ChildrenLex(arena, x, kids[1..], t);
      PrependPrepend(ElementTokens(arena, kids[0]), ChildrenTokens(arena, x, kids[1..]), Lex(t));
    }
  }

  /** Reading a printed document gives back the tokens of its last element. */
  lemma RenderDocLex(arena: seq<XmlElement>, doc: seq<nat>)
    requires Ordered(arena) && Readable(arena) && doc != [] && InArena(arena, doc)
    ensures Lex(RenderDoc(arena, doc)) == Ok(ElementTokens(arena, doc[|doc| - 1]))
  {
    var s := RenderDoc(arena, doc);
    RenderLex(arena, doc[|doc| - 1], []);
    assert s + [] == s;
    assert SpaceRun([]) == 0;
    assert Lex([]) == Ok([]);
    assert ElementTokens(arena, doc[|doc| - 1]) + [] == ElementTokens(arena, doc[|doc| - 1]);
  }
}
