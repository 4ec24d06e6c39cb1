/** The document model and the tree builder: tokens become elements that
    know their parent, nesting level, children, attributes and content, and
    the document lists the elements in the order they were closed.

    Elements are shared between their parent's child list, the stack of
    open elements and the document. The model gives every element an index
    into an arena (a sequence of elements, in creation order); parents,
    children, the stack and the document hold indices. */
module Parser {
  import opened Common
  import Lexer

  datatype XmlAttribute = XmlAttribute(key: string, value: string)

  datatype XmlElement = XmlElement(
    name: string,
    parent: Option<nat>,
    level: nat,
    children: seq<nat>,
    attributes: seq<XmlAttribute>,
    content: string)

  /** Every index the document holds names an element of the arena. */
  predicate InArena(arena: seq<XmlElement>, ids: seq<nat>) {
    forall i :: 0 <= i < |ids| ==> ids[i] < |arena|
  }

  // ---------------------------------------------------------------------
  // Queries on one element
  // ---------------------------------------------------------------------

  /** The value of the first attribute whose key is `key`, or the empty
      string when there is none. */
  function GetAttribute(attributes: seq<XmlAttribute>, key: string): string {
    if attributes == [] then []
    else if attributes[0].key == key then attributes[0].value
    else GetAttribute(attributes[1..], key)
  }

  /** The first attribute with the key decides, whatever follows it. */
  lemma {:induction false} GetAttributeFirst(attributes: seq<XmlAttribute>, key: string, i: nat)
    requires i < |attributes| && attributes[i].key == key
    requires forall j :: 0 <= j < i ==> attributes[j].key != key
    ensures GetAttribute(attributes, key) == attributes[i].value
  {
    if i > 0 {
      GetAttributeFirst(attributes[1..], key, i - 1);
    }
  }

  /** Without an attribute of that key the answer is the empty string. */
  lemma {:induction false} GetAttributeMissing(attributes: seq<XmlAttribute>, key: string)
    requires forall j :: 0 <= j < |attributes| ==> attributes[j].key != key
    ensures GetAttribute(attributes, key) == []
  {
    if attributes != [] {
      GetAttributeMissing(attributes[1..], key);
    }
  }

  /** Attributes added after the first one with the key change nothing. */
  lemma {:induction false} GetAttributeAppend(attributes: seq<XmlAttribute>, a: XmlAttribute, key: string)
    requires exists j :: 0 <= j < |attributes| && attributes[j].key == key
    ensures GetAttribute(attributes + [a], key) == GetAttribute(attributes, key)
  {
    assert attributes != [];
    if attributes[0].key != key {
      assert (attributes + [a])[1..] == attributes[1..] + [a];
      var j :| 0 <= j < |attributes| && attributes[j].key == key;
      assert attributes[1..][j - 1].key == key;
      GetAttributeAppend(attributes[1..], a, key);
    }
  }

  /** A copy of the first child (in child order) called `name`, or the
      error the source throws. */
  function GetChild(arena: seq<XmlElement>, children: seq<nat>, name: string): Result<XmlElement, string>
    requires InArena(arena, children)
  {
    if children == [] then Err("Child not found")
    else if arena[children[0]].name == name then Ok(arena[children[0]])
    else GetChild(arena, children[1..], name)
  }

  lemma {:induction false} GetChildFirst(arena: seq<XmlElement>, children: seq<nat>, name: string, i: nat)
    requires InArena(arena, children)
    requires i < |children| && arena[children[i]].name == name
    requires forall j :: 0 <= j < i ==> arena[children[j]].name != name
    ensures GetChild(arena, children, name) == Ok(arena[children[i]])
  {
    if i > 0 {
      GetChildFirst(arena, children[1..], name, i - 1);
    }
  }

  lemma {:induction false} GetChildMissing(arena: seq<XmlElement>, children: seq<nat>, name: string)
    requires InArena(arena, children)
    requires forall j :: 0 <= j < |children| ==> arena[children[j]].name != name
    ensures GetChild(arena, children, name) == Err("Child not found")
  {
    if children != [] {
      GetChildMissing(arena, children[1..], name);
    }
  }

  // ---------------------------------------------------------------------
  // The document: a growing list of element references
  // ---------------------------------------------------------------------

  class XmlDoc {
    var data: seq<nat>

    constructor ()
      ensures data == []
    {
      data := [];
    }

    method Size() returns (n: nat)
      ensures n == |data|
    {
      n := |data|;
    }

    method Back() returns (x: nat)
      requires data != []
      ensures x == data[|data| - 1]
    {
      x := data[|data| - 1];
    }

    /** Indexing is only defined below the size. */
    method At(ind: nat) returns (x: nat)
      requires ind < |data|
      ensures x == data[ind]
    {
      x := data[ind];
    }

    method PushBack(element: nat)
      modifies this
      ensures data == old(data) + [element]
    {
      data := data + [element];
    }

    method AddElement(element: nat)
      modifies this
      ensures data == old(data) + [element]
    {
      PushBack(element);
    }
  }

  // ---------------------------------------------------------------------
  // Filters
  // ---------------------------------------------------------------------

  /** The elements of `doc` that `keep` accepts, in document order. */
  function Keep(doc: seq<nat>, keep: nat -> bool): seq<nat> {
    if doc == [] then []
    else (if keep(doc[0]) then [doc[0]] else []) + Keep(doc[1..], keep)
  }

  /** `r` can be obtained from `s` by deleting elements. */
  predicate Subsequence(r: seq<nat>, s: seq<nat>)
    decreases |s|
  {
    if r == [] then true
    else if s == [] then false
    else if r[0] == s[0] then Subsequence(r[1..], s[1..])
    else Subsequence(r, s[1..])
  }

  lemma {:induction false} KeepMembers(doc: seq<nat>, keep: nat -> bool)
    ensures forall x :: x in Keep(doc, keep) <==> x in doc && keep(x)
  {
    if doc != [] {
      KeepMembers(doc[1..], keep);
      assert doc == [doc[0]] + doc[1..];
    }
  }

  lemma {:induction false} KeepOrder(doc: seq<nat>, keep: nat -> bool)
    ensures Subsequence(Keep(doc, keep), doc)
  {
    if doc != [] {
      KeepOrder(doc[1..], keep);
      if keep(doc[0]) {
        assert ([doc[0]] + Keep(doc[1..], keep))[1..] == Keep(doc[1..], keep);
      } else {
        // what is kept from the tail cannot start with the rejected head
        KeepMembers(doc[1..], keep);
        var k := Keep(doc[1..], keep);
        assert k != [] ==> k[0] in k && k[0] != doc[0];
        assert Keep(doc, keep) == [] + k == k;
      }
    }
  }

  /** Nothing is kept when nothing is accepted. */
  lemma {:induction false} KeepNone(doc: seq<nat>, keep: nat -> bool)
    requires forall i :: 0 <= i < |doc| ==> !keep(doc[i])
    ensures Keep(doc, keep) == []
  {
    if doc != [] {
      assert forall i :: 0 <= i < |doc[1..]| ==> doc[1..][i] == doc[i + 1];
      KeepNone(doc[1..], keep);
    }
  }

  /** Filtering a concatenation filters each part. */
  lemma {:induction false} KeepAppend(a: seq<nat>, b: seq<nat>, keep: nat -> bool)
    ensures Keep(a + b, keep) == Keep(a, keep) + Keep(b, keep)
  {
    if a != [] {
      assert (a + b)[1..] == a[1..] + b;
      KeepAppend(a[1..], b, keep);
    } else {
      assert a + b == b;
    }
  }

  /** A filtered document still names elements of the arena. */
  lemma KeepInArena(arena: seq<XmlElement>, doc: seq<nat>, keep: nat -> bool)
    requires InArena(arena, doc)
    ensures InArena(arena, Keep(doc, keep))
  {
    var k := Keep(doc, keep);
    KeepMembers(doc, keep);
    forall i | 0 <= i < |k| ensures k[i] < |arena| {
      assert k[i] in k;
      var j :| 0 <= j < |doc| && doc[j] == k[i];
    }
  }

  /** Elements whose name full-matches `pattern`; `matches(text, pattern)`
      stands for `std::regex_match`. */
  function NameFilter(arena: seq<XmlElement>, doc: seq<nat>, pattern: string,
                      matches: (string, string) -> bool): seq<nat>
    requires InArena(arena, doc)
  {
    Keep(doc, (x: nat) => x < |arena| && matches(arena[x].name, pattern))
  }

  /** Elements whose attribute `attr` full-matches `pattern`. */
  function AttrFilter(arena: seq<XmlElement>, doc: seq<nat>, attr: string, pattern: string,
                      matches: (string, string) -> bool): seq<nat>
    requires InArena(arena, doc)
  {
    Keep(doc, (x: nat) => x < |arena| && matches(GetAttribute(arena[x].attributes, attr), pattern))
  }

  lemma NameFilterSpec(arena: seq<XmlElement>, doc: seq<nat>, pattern: string,
                       matches: (string, string) -> bool)
    requires InArena(arena, doc)
    ensures forall x :: x in NameFilter(arena, doc, pattern, matches) <==>
                          x in doc && matches(arena[x].name, pattern)
    ensures Subsequence(NameFilter(arena, doc, pattern, matches), doc)
    ensures InArena(arena, NameFilter(arena, doc, pattern, matches))
  {
    KeepInArena(arena, doc, (x: nat) => x < |arena| && matches(arena[x].name, pattern));
    KeepMembers(doc, (x: nat) => x < |arena| && matches(arena[x].name, pattern));
    KeepOrder(doc, (x: nat) => x < |arena| && matches(arena[x].name, pattern));
  }

  lemma AttrFilterSpec(arena: seq<XmlElement>, doc: seq<nat>, attr: string, pattern: string,
                       matches: (string, string) -> bool)
    requires InArena(arena, doc)
    ensures forall x :: x in AttrFilter(arena, doc, attr, pattern, matches) <==>
                          x in doc && matches(GetAttribute(arena[x].attributes, attr), pattern)
    ensures Subsequence(AttrFilter(arena, doc, attr, pattern, matches), doc)
    ensures InArena(arena, AttrFilter(arena, doc, attr, pattern, matches))
  {
    KeepInArena(arena, doc, (x: nat) => x < |arena| && matches(GetAttribute(arena[x].attributes, attr), pattern));
    KeepMembers(doc, (x: nat) => x < |arena| && matches(GetAttribute(arena[x].attributes, attr), pattern));
    KeepOrder(doc, (x: nat) => x < |arena| && matches(GetAttribute(arena[x].attributes, attr), pattern));
  }

  /** An element without the attribute is judged as if its value were "". */
  lemma AttrFilterMissing(arena: seq<XmlElement>, doc: seq<nat>, attr: string, pattern: string,
                          matches: (string, string) -> bool, x: nat)
    requires InArena(arena, doc) && x in doc
    requires forall j :: 0 <= j < |arena[x].attributes| ==> arena[x].attributes[j].key != attr
    ensures x in AttrFilter(arena, doc, attr, pattern, matches) <==> matches([], pattern)
  {
    GetAttributeMissing(arena[x].attributes, attr);
    AttrFilterSpec(arena, doc, attr, pattern, matches);
  }

  // ---------------------------------------------------------------------
  // Building the tree
  // ---------------------------------------------------------------------

  /** The builder's state: every element created so far, the stack of open
      elements (bottom first) and the document of closed elements. */
  datatype ParseState = ParseState(arena: seq<XmlElement>, stack: seq<nat>, doc: seq<nat>)

  /** Tokens that act on the element on top of the stack. */
  predicate NeedsTop(t: Lexer.Token) {
    t.Attribute? || t.Content? || t.CloseTag? || t.EndTag?
  }

  predicate Closes(t: Lexer.Token) {
    t.CloseTag? || t.EndTag?
  }

  /** The nesting depth after `ts`: opening tags minus closing ones. */
  function Depth(ts: seq<Lexer.Token>): int {
    if ts == [] then 0
    else
      var t := ts[|ts| - 1];
      Depth(ts[..|ts| - 1]) + (if t.StartTagBegin? then 1 else if Closes(t) then -1 else 0)
  }

  /** No token needs the top of the stack while the stack is empty (the
      source then reads an empty `std::stack`, which is undefined). */
  predicate Parsable(ts: seq<Lexer.Token>) {
    ts == [] ||
    (Parsable(ts[..|ts| - 1]) && (NeedsTop(ts[|ts| - 1]) ==> Depth(ts[..|ts| - 1]) > 0))
  }

  function Opened(ts: seq<Lexer.Token>): nat {
    if ts == [] then 0
    else Opened(ts[..|ts| - 1]) + (if ts[|ts| - 1].StartTagBegin? then 1 else 0)
  }

  function Closed(ts: seq<Lexer.Token>): nat {
    if ts == [] then 0
    else Closed(ts[..|ts| - 1]) + (if Closes(ts[|ts| - 1]) then 1 else 0)
  }

  /** A new element: a root when nothing is open, otherwise the last child
      of the element on top of the stack, one level below it. */
  function Open(st: ParseState, name: string): ParseState
    requires InArena(st.arena, st.stack)
  {
    var id := |st.arena|;
    if st.stack == [] then
      ParseState(st.arena + [XmlElement(name, None, 0, [], [], [])], [id], st.doc)
    else
      var top := st.stack[|st.stack| - 1];
      var p := st.arena[top];
      ParseState(st.arena[top := p.(children := p.children + [id])]
                   + [XmlElement(name, Some(top), |st.stack|, [], [], [])],
                 st.stack + [id], st.doc)
  }

  /** The element on top of the stack is finished: it joins the document. */
  function Close(st: ParseState): ParseState
    requires st.stack != []
  {
    ParseState(st.arena, st.stack[..|st.stack| - 1], st.doc + [st.stack[|st.stack| - 1]])
  }

  /** The effect of one token. `StartTagEnd` changes nothing, and the name
      an `EndTag` carries is not compared with the element it closes. */
  function StepToken(st: ParseState, t: Lexer.Token): (r: ParseState)
    requires InArena(st.arena, st.stack)
    requires NeedsTop(t) ==> st.stack != []
    ensures InArena(r.arena, r.stack)
  {
    match t
    case StartTagBegin(name) => Open(st, name)
    case StartTagEnd => st
    case Attribute(key, value) =>
      var top := st.stack[|st.stack| - 1];
      var e := st.arena[top];
      st.(arena := st.arena[top := e.(attributes := e.attributes + [XmlAttribute(key, value)])])
    case Content(text) =>
      var top := st.stack[|st.stack| - 1];
      st.(arena := st.arena[top := st.arena[top].(content := text)])
    case CloseTag => Close(st)
    case EndTag(_) => Close(st)
  }

  /** The state after all of `ts`, token by token from an empty start. */
  function Run(ts: seq<Lexer.Token>): (r: ParseState)
    requires Parsable(ts)
    ensures InArena(r.arena, r.stack) && |r.stack| == Depth(ts)
  {
    if ts == [] then ParseState([], [], [])
    else StepToken(Run(ts[..|ts| - 1]), ts[|ts| - 1])
  }

  /** One element per opening tag, one document entry per closing tag. */
  lemma {:induction false} RunCounts(ts: seq<Lexer.Token>)
    requires Parsable(ts)
    ensures |Run(ts).arena| == Opened(ts)
    ensures |Run(ts).doc| == Closed(ts)
    ensures Depth(ts) == Opened(ts) - Closed(ts)
  {
    if ts != [] {
      RunCounts(ts[..|ts| - 1]);
    }
  }

  lemma {:induction false} ParsablePrefix(ts: seq<Lexer.Token>, n: nat)
    requires Parsable(ts) && n <= |ts|
    ensures Parsable(ts[..n])
    decreases |ts|
  {
    if n < |ts| {
      assert ts[..|ts| - 1][..n] == ts[..n];
      ParsablePrefix(ts[..|ts| - 1], n);
    } else {
      assert ts[..n] == ts;
    }
  }

  /** An `EndTag` acts exactly like a `CloseTag`, whatever name it carries. */
  lemma {:induction false} EndTagNameIgnored(ts: seq<Lexer.Token>, us: seq<Lexer.Token>)
    requires |ts| == |us|
    requires forall i :: 0 <= i < |ts| ==> ts[i] == us[i] || (ts[i].EndTag? && us[i].CloseTag?)
    ensures Depth(ts) == Depth(us)
    ensures Parsable(ts) <==> Parsable(us)
    ensures Parsable(ts) ==> Run(ts) == Run(us)
  {
    if ts != [] {
      var n := |ts| - 1;
      EndTagNameIgnored(ts[..n], us[..n]);
    }
  }

  /** An `Attribute` token adds the attribute at the end of the attributes
      of the element on top of the stack, and changes nothing else. */
  lemma AttributeAppends(st: ParseState, key: string, value: string)
    requires InArena(st.arena, st.stack) && st.stack != []
    ensures var r := StepToken(st, Lexer.Attribute(key, value)); var top := st.stack[|st.stack| - 1];
      r.stack == st.stack && r.doc == st.doc && |r.arena| == |st.arena| &&
      r.arena[top].attributes == st.arena[top].attributes + [XmlAttribute(key, value)] &&
      r.arena[top].(attributes := st.arena[top].attributes) == st.arena[top] &&
      forall x :: 0 <= x < |st.arena| && x != top ==> r.arena[x] == st.arena[x]
  {
  }

  /** A `Content` token replaces the content of the element on top of the
      stack, so of two content tokens the later one wins. */
  lemma ContentLastWins(st: ParseState, a: string, b: string)
    requires InArena(st.arena, st.stack) && st.stack != []
    ensures StepToken(StepToken(st, Lexer.Content(a)), Lexer.Content(b)) == StepToken(st, Lexer.Content(b))
    ensures StepToken(st, Lexer.Content(b)).arena[st.stack[|st.stack| - 1]].content == b
  {
  }

  // ---------------------------------------------------------------------
  // What the builder keeps true
  // ---------------------------------------------------------------------

  /** A root sits at level 0; any other element comes after its parent in
      creation order, one level below it, and is among its children. */
  predicate ParentLinks(a: seq<XmlElement>) {
    forall x :: 0 <= x < |a| ==> ParentLink(a, x)
  }

  predicate ParentLink(a: seq<XmlElement>, x: nat)
    requires x < |a|
  {
    match a[x].parent
    case None => a[x].level == 0
    case Some(p) => p < x && a[x].level == a[p].level + 1 && x in a[p].children
  }

  /** Every child is a later element whose parent is the element listing it. */
  predicate ChildLinks(a: seq<XmlElement>) {
    forall p, j :: 0 <= p < |a| && 0 <= j < |a[p].children| ==>
      p < a[p].children[j] < |a| && a[a[p].children[j]].parent == Some(p)
  }

  /** The k-th open element is at level k, and the stack grows upwards in
      creation order. */
  predicate StackShape(st: ParseState) {
    (forall k :: 0 <= k < |st.stack| ==>
       st.stack[k] < |st.arena| && st.arena[st.stack[k]].level == k) &&
    (forall j, k :: 0 <= j < k < |st.stack| ==> st.stack[j] < st.stack[k])
  }

  /** The document names distinct elements, none of them still open. */
  predicate DocShape(st: ParseState) {
    (forall i :: 0 <= i < |st.doc| ==> st.doc[i] < |st.arena|) &&
    (forall i, j :: 0 <= i < j < |st.doc| ==> st.doc[i] != st.doc[j]) &&
    (forall i, k :: 0 <= i < |st.doc| && 0 <= k < |st.stack| ==> st.doc[i] != st.stack[k])
  }

  /** Every child of a closed element was closed before it. */
  predicate ChildrenFirst(st: ParseState) {
    forall i, j :: 0 <= i < |st.doc| && st.doc[i] < |st.arena| &&
                   0 <= j < |st.arena[st.doc[i]].children| ==>
      st.arena[st.doc[i]].children[j] in st.doc[..i]
  }

  /** Every child of an open element is closed, except the open element
      just above it on the stack. */
  predicate Pending(st: ParseState) {
    forall k, j :: 0 <= k < |st.stack| && st.stack[k] < |st.arena| &&
                   0 <= j < |st.arena[st.stack[k]].children| ==>
      st.arena[st.stack[k]].children[j] in st.doc ||
      (k + 1 < |st.stack| && st.arena[st.stack[k]].children[j] == st.stack[k + 1])
  }

  /** Every element is either open or in the document. */
  predicate Covered(st: ParseState) {
    forall x :: 0 <= x < |st.arena| ==> x in st.doc || x in st.stack
  }

  predicate Inv(st: ParseState) {
    ParentLinks(st.arena) && ChildLinks(st.arena) && StackShape(st) && DocShape(st) &&
    ChildrenFirst(st) && Pending(st) && Covered(st)
  }

  /** How `Open` changes the arena: one new element at the end, and the
      element on top of the stack gains it as its last child. */
  lemma OpenArena(st: ParseState, name: string)
    requires InArena(st.arena, st.stack)
    ensures var r := Open(st, name); var id := |st.arena|;
      |r.arena| == id + 1 &&
      r.arena[id] == XmlElement(name, if st.stack == [] then None else Some(st.stack[|st.stack| - 1]),
                                |st.stack|, [], [], []) &&
      r.stack == st.stack + [id] && r.doc == st.doc &&
      (forall x :: 0 <= x < id ==> r.arena[x].parent == st.arena[x].parent &&
                                   r.arena[x].level == st.arena[x].level &&
                                   r.arena[x].name == st.arena[x].name) &&
      (forall x :: 0 <= x < id && (st.stack == [] || x != st.stack[|st.stack| - 1]) ==>
                   r.arena[x] == st.arena[x]) &&
      (st.stack != [] ==>
         var top := st.stack[|st.stack| - 1];
         r.arena[top] == st.arena[top].(children := st.arena[top].children + [id]))
  {
  }

  lemma OpenParentLinks(st: ParseState, name: string)
    requires ParentLinks(st.arena) && StackShape(st)
    ensures ParentLinks(Open(st, name).arena)
  {
    var r := Open(st, name);
    var id := |st.arena|;
    OpenArena(st, name);
    forall x | 0 <= x < |r.arena| ensures ParentLink(r.arena, x) {
      if x == id {
        if st.stack != [] {
          var top := st.stack[|st.stack| - 1];
          assert r.arena[top].level == |st.stack| - 1;
          assert id in r.arena[top].children;
        }
      } else {
        assert ParentLink(st.arena, x);
        if st.arena[x].parent.Some? {
          var q := st.arena[x].parent.value;
          assert x in st.arena[q].children;
          assert x in r.arena[q].children;
        }
      }
    }
  }

  lemma OpenChildLinks(st: ParseState, name: string)
    requires ChildLinks(st.arena) && InArena(st.arena, st.stack)
    ensures ChildLinks(Open(st, name).arena)
  {
    var r := Open(st, name);
    var id := |st.arena|;
    OpenArena(st, name);
    forall q, j | 0 <= q < |r.arena| && 0 <= j < |r.arena[q].children| ensures
      q < r.arena[q].children[j] < |r.arena| && r.arena[r.arena[q].children[j]].parent == Some(q)
    {
      if q < id && j < |st.arena[q].children| {
        assert r.arena[q].children[j] == st.arena[q].children[j];
      }
    }
  }

  lemma OpenShapes(st: ParseState, name: string)
    requires StackShape(st) && DocShape(st) && Covered(st)
    ensures StackShape(Open(st, name)) && DocShape(Open(st, name)) && Covered(Open(st, name))
  {
    var r := Open(st, name);
    var id := |st.arena|;
    OpenArena(st, name);
    assert r.stack[|st.stack|] == id;
    forall x | 0 <= x < |r.arena| ensures x in r.doc || x in r.stack {
      if x < id { assert x in st.doc || x in st.stack; }
    }
  }

  lemma OpenChildrenFirst(st: ParseState, name: string)
    requires ChildrenFirst(st) && DocShape(st) && InArena(st.arena, st.stack)
    ensures ChildrenFirst(Open(st, name))
  {
    var r := Open(st, name);
    OpenArena(st, name);
    forall i, j | 0 <= i < |r.doc| && r.doc[i] < |r.arena| && 0 <= j < |r.arena[r.doc[i]].children|
      ensures r.arena[r.doc[i]].children[j] in r.doc[..i]
    {
      assert st.stack != [] ==> st.doc[i] != st.stack[|st.stack| - 1];
    }
  }

  lemma OpenPending(st: ParseState, name: string)
    requires Pending(st) && StackShape(st)
    ensures Pending(Open(st, name))
  {
    var r := Open(st, name);
    var id := |st.arena|;
    OpenArena(st, name);
    forall k, j | 0 <= k < |r.stack| && r.stack[k] < |r.arena| && 0 <= j < |r.arena[r.stack[k]].children|
      ensures r.arena[r.stack[k]].children[j] in r.doc ||
              (k + 1 < |r.stack| && r.arena[r.stack[k]].children[j] == r.stack[k + 1])
    {
      if k + 1 < |st.stack| {
        assert r.stack[k] == st.stack[k] && r.stack[k + 1] == st.stack[k + 1];
        assert st.stack[k] < st.stack[|st.stack| - 1];
      } else if k + 1 == |st.stack| && j < |st.arena[st.stack[k]].children| {
        assert r.arena[r.stack[k]].children[j] == st.arena[st.stack[k]].children[j];
      }
    }
  }

  lemma OpenKeeps(st: ParseState, name: string)
    requires Inv(st)
    ensures Inv(Open(st, name))
  {
    OpenParentLinks(st, name);
    OpenChildLinks(st, name);
    OpenShapes(st, name);
    OpenChildrenFirst(st, name);
    OpenPending(st, name);
  }

  lemma CloseShapes(st: ParseState)
    requires st.stack != [] && StackShape(st) && DocShape(st)
    ensures StackShape(Close(st)) && DocShape(Close(st))
  {
    var r := Close(st);
    var n := |st.stack| - 1;
    forall i, k | 0 <= i < |r.doc| && 0 <= k < |r.stack| ensures r.doc[i] != r.stack[k] {
      if i == |st.doc| {
        assert st.stack[k] < st.stack[n];
      }
    }
    forall i, j | 0 <= i < j < |r.doc| ensures r.doc[i] != r.doc[j] {
      if j == |st.doc| {
        assert st.doc[i] != st.stack[n];
      }
    }
  }

  lemma CloseChildrenFirst(st: ParseState)
    requires st.stack != [] && ChildrenFirst(st) && Pending(st) && StackShape(st)
    ensures ChildrenFirst(Close(st))
  {
    var r := Close(st);
    var n := |st.stack| - 1;
    var top := st.stack[n];
    forall i, j | 0 <= i < |r.doc| && r.doc[i] < |r.arena| && 0 <= j < |r.arena[r.doc[i]].children|
      ensures r.arena[r.doc[i]].children[j] in r.doc[..i]
    {
      assert r.doc[..i] == st.doc[..i] || i == |st.doc|;
      if i == |st.doc| {
        assert r.doc[i] == top;
        assert r.doc[..i] == st.doc;
        assert st.arena[top].children[j] in st.doc;
      } else {
        assert r.doc[..i] == st.doc[..i];
        assert r.doc[i] == st.doc[i];
      }
    }
  }

  lemma ClosePending(st: ParseState)
    requires st.stack != [] && Pending(st) && Covered(st)
    ensures Pending(Close(st)) && Covered(Close(st))
  {
    var r := Close(st);
    var n := |st.stack| - 1;
    forall k, j | 0 <= k < |r.stack| && r.stack[k] < |r.arena| && 0 <= j < |r.arena[r.stack[k]].children|
      ensures r.arena[r.stack[k]].children[j] in r.doc ||
              (k + 1 < |r.stack| && r.arena[r.stack[k]].children[j] == r.stack[k + 1])
    {
      assert r.stack[k] == st.stack[k];
      var c := st.arena[st.stack[k]].children[j];
      assert c in st.doc || (k + 1 < |st.stack| && c == st.stack[k + 1]);
      if k + 1 == n {
        assert st.stack[k + 1] in r.doc;
      } else if k + 1 < n {
        assert r.stack[k + 1] == st.stack[k + 1];
      }
    }
    forall x | 0 <= x < |r.arena| ensures x in r.doc || x in r.stack {
      assert x in st.doc || x in st.stack;
      if x in st.stack && x !in r.stack {
        var k :| 0 <= k < |st.stack| && st.stack[k] == x;
        assert k == n;
      }
    }
  }

  lemma CloseKeeps(st: ParseState)
    requires st.stack != [] && Inv(st)
    ensures Inv(Close(st))
  {
    CloseShapes(st);
    CloseChildrenFirst(st);
    ClosePending(st);
  }

  /** Changing only attributes or content of elements keeps every
      structural fact. */
  lemma PayloadKeeps(st: ParseState, b: seq<XmlElement>)
    requires Inv(st) && |b| == |st.arena|
    requires forall x :: 0 <= x < |b| ==>
      b[x].parent == st.arena[x].parent && b[x].level == st.arena[x].level &&
      b[x].children == st.arena[x].children
    ensures Inv(st.(arena := b))
  {
    var r := st.(arena := b);
    forall x | 0 <= x < |b| ensures ParentLink(b, x) {
      assert ParentLink(st.arena, x);
    }
  }

  lemma StepKeeps(st: ParseState, t: Lexer.Token)
    requires Inv(st) && (NeedsTop(t) ==> st.stack != [])
    ensures Inv(StepToken(st, t))
  {
    match t
    case StartTagBegin(name) => OpenKeeps(st, name);
    case StartTagEnd =>
    case Attribute(key, value) =>
      var top := st.stack[|st.stack| - 1];
      var e := st.arena[top];
      PayloadKeeps(st, st.arena[top := e.(attributes := e.attributes + [XmlAttribute(key, value)])]);
    case Content(text) =>
      var top := st.stack[|st.stack| - 1];
      PayloadKeeps(st, st.arena[top := st.arena[top].(content := text)]);
    case CloseTag => CloseKeeps(st);
    case EndTag(_) => CloseKeeps(st);
  }

  lemma {:induction false} RunKeeps(ts: seq<Lexer.Token>)
    requires Parsable(ts)
    ensures Inv(Run(ts))
  {
    if ts != [] {
      RunKeeps(ts[..|ts| - 1]);
      StepKeeps(Run(ts[..|ts| - 1]), ts[|ts| - 1]);
    }
  }

  /** An element is a root exactly when it sits at nesting level 0. */
  lemma RootIffLevelZero(ts: seq<Lexer.Token>, x: nat)
    requires Parsable(ts) && x < |Run(ts).arena|
    ensures Run(ts).arena[x].parent.None? <==> Run(ts).arena[x].level == 0
  {
    RunKeeps(ts);
    assert ParentLink(Run(ts).arena, x);
  }

  /** The document lists every element after all of its children. */
  lemma ChildBeforeParent(ts: seq<Lexer.Token>, i: nat, j: nat)
    requires Parsable(ts)
    requires i < |Run(ts).doc| && j < |Run(ts).doc| && Run(ts).doc[i] < |Run(ts).arena|
    requires Run(ts).arena[Run(ts).doc[i]].parent == Some(Run(ts).doc[j])
    ensures i < j
  {
    var r := Run(ts);
    RunKeeps(ts);
    assert ParentLink(r.arena, r.doc[i]);
    var c := r.doc[i];
    var p := r.doc[j];
    var k :| 0 <= k < |r.arena[p].children| && r.arena[p].children[k] == c;
    assert c in r.doc[..j];
    var i' :| 0 <= i' < j && r.doc[i'] == c;
    assert i' == i;
  }

  /** Once every opened element is closed, the document lists each element
      exactly once. */
  lemma BalancedDoc(ts: seq<Lexer.Token>)
    requires Parsable(ts) && Depth(ts) == 0
    ensures Run(ts).stack == []
    ensures |Run(ts).doc| == |Run(ts).arena| == Opened(ts)
    ensures forall x :: 0 <= x < |Run(ts).arena| ==> x in Run(ts).doc
    ensures forall i, j :: 0 <= i < j < |Run(ts).doc| ==> Run(ts).doc[i] != Run(ts).doc[j]
  {
    RunKeeps(ts);
    RunCounts(ts);
  }

  /** Once every opened element is closed, the last one closed is a root:
      the final closing tag pops the bottom of the stack, which is at
      level 0. */
  lemma {:induction false} LastClosedIsRoot(ts: seq<Lexer.Token>)
    requires Parsable(ts) && Depth(ts) == 0 && Run(ts).doc != []
    ensures Run(ts).doc[|Run(ts).doc| - 1] < |Run(ts).arena|
    ensures Run(ts).arena[Run(ts).doc[|Run(ts).doc| - 1]].parent == None
  {
    RunKeeps(ts);
    var pre := ts[..|ts| - 1];
    var t := ts[|ts| - 1];
    RunKeeps(pre);
    if Closes(t) {
      var s := Run(pre);
      assert |s.stack| == 1;
      assert ParentLink(s.arena, s.stack[0]);
    } else {
      assert t.StartTagEnd?;
      LastClosedIsRoot(pre);
    }
  }

  /** `y` is a proper ancestor of `x`: following parent links up from `x`
      reaches `y`. */
  predicate Below(a: seq<XmlElement>, x: nat, y: nat)
    decreases x
  {
    x < |a| &&
    match a[x].parent
    case None => false
    case Some(p) => p == y || (p < x && Below(a, p, y))
  }

  /** Every descendant of a closed element was closed before it. */
  lemma {:induction false} BelowClosed(st: ParseState, x: nat, j: nat)
    requires Inv(st) && j < |st.doc| && Below(st.arena, x, st.doc[j])
    ensures x in st.doc[..j]
    decreases x
  {
    var a := st.arena;
    assert ParentLink(a, x);
    var p := a[x].parent.value;
    var m :| 0 <= m < |a[p].children| && a[p].children[m] == x;
    if p == st.doc[j] {
      assert a[st.doc[j]].children[m] in st.doc[..j];
    } else {
      BelowClosed(st, p, j);
      var k :| 0 <= k < j && st.doc[k] == p;
      assert a[st.doc[k]].children[m] in st.doc[..k];
      var l :| 0 <= l < k && st.doc[l] == x;
      assert st.doc[..j][l] == x;
    }
  }

  /** The document lists every element after all of its descendants. */
  lemma DescendantBeforeAncestor(ts: seq<Lexer.Token>, i: nat, j: nat)
    requires Parsable(ts) && i < |Run(ts).doc| && j < |Run(ts).doc|
    requires Below(Run(ts).arena, Run(ts).doc[i], Run(ts).doc[j])
    ensures i < j
  {
    var r := Run(ts);
    RunKeeps(ts);
    BelowClosed(r, r.doc[i], j);
    var l :| 0 <= l < j && r.doc[l] == r.doc[i];
    assert l == i;
  }

  // ---------------------------------------------------------------------
  // The imperative builder
  // ---------------------------------------------------------------------

  class Parser {
    const tokens: seq<Lexer.Token>

    constructor (tokens: seq<Lexer.Token>)
      ensures this.tokens == tokens
    {
      this.tokens := tokens;
    }

    /** One pass over the tokens with a stack of open elements; returns the
        elements (`arena`) and the document of closed ones. */
    method Parse() returns (arena: seq<XmlElement>, doc: XmlDoc)
      requires Parsable(tokens)
      ensures fresh(doc)
      ensures arena == Run(tokens).arena && doc.data == Run(tokens).doc
    {
      var parents: seq<nat> := [];
      arena := [];
      doc := new XmlDoc();
      for i := 0 to |tokens|
        invariant Parsable(tokens[..i])
        invariant ParseState(arena, parents, doc.data) == Run(tokens[..i])
      {
        ParsablePrefix(tokens, i + 1);
        assert tokens[..i + 1][..i] == tokens[..i];
        arena, parents := Visit(arena, parents, doc, tokens[i]);
      }
      assert tokens[..|tokens|] == tokens;
    }
  }

  /** The action taken for one token: `parents` is the stack of open
      elements and `doc` receives the closed ones. */
  method Visit(arena: seq<XmlElement>, parents: seq<nat>, doc: XmlDoc, t: Lexer.Token)
    returns (arena': seq<XmlElement>, parents': seq<nat>)
    requires InArena(arena, parents) && (NeedsTop(t) ==> parents != [])
    modifies doc
    ensures ParseState(arena', parents', doc.data) == StepToken(ParseState(arena, parents, old(doc.data)), t)
  {
    arena', parents' := arena, parents;
    match t
    case StartTagBegin(name) =>
      if parents == [] {
        parents' := [|arena|];
        arena' := arena + [XmlElement(name, None, 0, [], [], [])];
      } else {
        var top := parents[|parents| - 1];
        var newElem := XmlElement(name, Some(top), |parents|, [], [], []);
        arena' := arena[top := arena[top].(children := arena[top].children + [|arena|])];
        arena' := arena' + [newElem];
        parents' := parents + [|arena|];
      }
    case StartTagEnd =>
    case Attribute(key, value) =>
      var top := parents[|parents| - 1];
      arena' := arena[top := arena[top].(attributes := arena[top].attributes + [XmlAttribute(key, value)])];
    case Content(text) =>
      var top := parents[|parents| - 1];
      arena' := arena[top := arena[top].(content := text)];
    case CloseTag =>
      doc.AddElement(parents[|parents| - 1]);
      parents' := parents[..|parents| - 1];
    case EndTag(_) =>
      doc.AddElement(parents[|parents| - 1]);
      parents' := parents[..|parents| - 1];
  }
}
