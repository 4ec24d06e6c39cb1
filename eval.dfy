/** The evaluator of include/operation/eval.hpp: read a data document and an
    operations document, compute one number per operation over the data
    elements its filter selects, and print a `results` tree.

    Three library services are parameters: `matches(text, pattern)` stands
    for `std::regex_match`, `parseNumber` for `std::stod` (`None` where it
    throws) and `format` for printing with `std::fixed` and
    `std::setprecision(2)`. Numbers are `real`s. */
module Eval {
  import opened Common
  import opened Lexer
  import opened Parser
  import opened Operation
  import opened Output

  /** How an evaluation can fail: an exception with its message, a failed
      `assert`, or a tokenizer that never returns because an input ends
      inside content or an attribute. */
  datatype Failure = Thrown(message: string) | AssertionFailed(condition: string) | Diverges

  // ---------------------------------------------------------------------
  // apply_func
  // ---------------------------------------------------------------------

  /** `std::min_element`: the first smallest value. */
  function MinOf(data: seq<real>): real
    requires data != []
  {
    if |data| == 1 then data[0]
    else
      var m := MinOf(data[..|data| - 1]);
      if data[|data| - 1] < m then data[|data| - 1] else m
  }

  /** `std::max_element`: the first largest value. */
  function MaxOf(data: seq<real>): real
    requires data != []
  {
    if |data| == 1 then data[0]
    else
      var m := MaxOf(data[..|data| - 1]);
      if m < data[|data| - 1] then data[|data| - 1] else m
  }

  /** `std::accumulate` from 0: a left fold with `+`. */
  function Sum(data: seq<real>): real {
    if data == [] then 0.0 else Sum(data[..|data| - 1]) + data[|data| - 1]
  }

  /** The reducer called `name`. `min`, `max` and `average` need at least
      one value (the source dereferences an empty range, or divides by
      zero, otherwise). */
  function ApplyFunc(name: string, data: seq<real>): Result<real, string>
    requires name == "min" || name == "max" || name == "average" ==> data != []
  {
    if name == "min" then Ok(MinOf(data))
    else if name == "max" then Ok(MaxOf(data))
    else if name == "sum" then Ok(Sum(data))
    else if name == "average" then Ok(Sum(data) / (|data| as real))
    else Err("Unsupported function operation: " + name)
  }

  lemma {:induction false} MinOfIsLeast(data: seq<real>)
    requires data != []
    ensures MinOf(data) in data
    ensures forall i :: 0 <= i < |data| ==> MinOf(data) <= data[i]
  {
    if |data| > 1 {
      var p := data[..|data| - 1];
      MinOfIsLeast(p);
      assert forall i :: 0 <= i < |p| ==> p[i] == data[i];
    }
  }

  lemma {:induction false} MaxOfIsGreatest(data: seq<real>)
    requires data != []
    ensures MaxOf(data) in data
    ensures forall i :: 0 <= i < |data| ==> data[i] <= MaxOf(data)
  {
    if |data| > 1 {
      var p := data[..|data| - 1];
      MaxOfIsGreatest(p);
      assert forall i :: 0 <= i < |p| ==> p[i] == data[i];
    }
  }

  /** Bounds on every value bound the sum. */
  lemma {:induction false} SumBounds(data: seq<real>, lo: real, hi: real)
    requires forall i :: 0 <= i < |data| ==> lo <= data[i] <= hi
    ensures (|data| as real) * lo <= Sum(data) <= (|data| as real) * hi
  {
    if data != [] {
      var p := data[..|data| - 1];
      assert forall i :: 0 <= i < |p| ==> p[i] == data[i];
      SumBounds(p, lo, hi);
      assert (|data| as real) * lo == (|p| as real) * lo + lo;
      assert (|data| as real) * hi == (|p| as real) * hi + hi;
    }
  }

  /** The average lies between the minimum and the maximum. */
  lemma AverageBetween(data: seq<real>)
    requires data != []
    ensures ApplyFunc("min", data).value <= ApplyFunc("average", data).value <= ApplyFunc("max", data).value
  {
    MinOfIsLeast(data);
    MaxOfIsGreatest(data);
    SumBounds(data, MinOf(data), MaxOf(data));
    var n := |data| as real;
    var avg := Sum(data) / n;
    assert avg * n == Sum(data);
    ScaleBack(MinOf(data), avg, n);
    ScaleBack(avg, MaxOf(data), n);
  }

  /** Multiplying by a positive number keeps the order. */
  lemma ScaleBack(a: real, b: real, n: real)
    requires n > 0.0 && n * a <= b * n
    ensures a <= b
  {
  }

  /** Exactly the four names are understood. */
  lemma ApplyFuncNames(name: string, data: seq<real>)
    requires data != []
    ensures ApplyFunc(name, data).Ok? <==> name in {"min", "max", "sum", "average"}
    ensures ApplyFunc(name, data).Err? ==>
              ApplyFunc(name, data).error == "Unsupported function operation: " + name
  {
  }

  // ---------------------------------------------------------------------
  // Gathering values
  // ---------------------------------------------------------------------

  /** Every element's children are elements of the arena. */
  predicate Linked(arena: seq<XmlElement>) {
    forall x :: 0 <= x < |arena| ==> InArena(arena, arena[x].children)
  }

  lemma ParsedLinked(ts: seq<Token>)
    requires Parsable(ts)
    ensures Linked(Run(ts).arena) && InArena(Run(ts).arena, Run(ts).doc)
  {
    RunKeeps(ts);
    var a := Run(ts).arena;
    forall x | 0 <= x < |a| ensures InArena(a, a[x].children) {
      forall j | 0 <= j < |a[x].children| ensures a[x].children[j] < |a| {
        assert ChildLinks(a);
      }
    }
  }

  function Number(text: string, parseNumber: string -> Option<real>): Result<real, Failure> {
    match parseNumber(text)
    case None => Err(Thrown("stod"))
    case Some(v) => Ok(v)
  }

  /** The number an operation reads from one selected element: the content
      of its first child named `attrib` for type `sub`, its attribute
      `attrib` for type `attrib`. */
  function ValueOf(arena: seq<XmlElement>, x: nat, op: Operation, parseNumber: string -> Option<real>): Result<real, Failure>
    requires x < |arena| && InArena(arena, arena[x].children)
  {
    if op.kind == "sub" then
      match GetChild(arena, arena[x].children, op.attrib)
      case Err(m) => Err(Thrown(m))
      case Ok(child) => Number(child.content, parseNumber)
    else if op.kind == "attrib" then
      Number(GetAttribute(arena[x].attributes, op.attrib), parseNumber)
    else
      Err(Thrown("Unsuported operation type"))
  }

  /** The values of `ids` in order; the first failure ends the evaluation. */
  function Values(arena: seq<XmlElement>, ids: seq<nat>, op: Operation, parseNumber: string -> Option<real>): Result<seq<real>, Failure>
    requires Linked(arena) && InArena(arena, ids)
  {
    if ids == [] then Ok([])
    else
      match Values(arena, ids[..|ids| - 1], op, parseNumber)
      case Err(e) => Err(e)
      case Ok(vs) =>
        match ValueOf(arena, ids[|ids| - 1], op, parseNumber)
        case Err(e) => Err(e)
        case Ok(v) => Ok(vs + [v])
  }

  /** One value per selected element, each the value of that element. */
  lemma {:induction false} ValuesPointwise(arena: seq<XmlElement>, ids: seq<nat>, op: Operation, parseNumber: string -> Option<real>)
    requires Linked(arena) && InArena(arena, ids)
    ensures Values(arena, ids, op, parseNumber).Ok? ==>
              var vs := Values(arena, ids, op, parseNumber).value;
              |vs| == |ids| &&
              forall i :: 0 <= i < |ids| ==> ValueOf(arena, ids[i], op, parseNumber) == Ok(vs[i])
  {
    if ids != [] {
      ValuesPointwise(arena, ids[..|ids| - 1], op, parseNumber);
    }
  }

  /** A failure on a prefix is the failure of the whole. */
  lemma {:induction false} ValuesPrefixFails(arena: seq<XmlElement>, ids: seq<nat>, op: Operation,
                                             parseNumber: string -> Option<real>, k: nat)
    requires Linked(arena) && InArena(arena, ids) && k <= |ids|
    requires Values(arena, ids[..k], op, parseNumber).Err?
    ensures Values(arena, ids, op, parseNumber) == Values(arena, ids[..k], op, parseNumber)
  {
    if k < |ids| {
      assert ids[..|ids| - 1][..k] == ids[..k];
      ValuesPrefixFails(arena, ids[..|ids| - 1], op, parseNumber, k);
    } else {
      assert ids[..k] == ids;
    }
  }

  /** An operation of another type fails as soon as one element is
      selected. */
  lemma UnsupportedTypeFails(arena: seq<XmlElement>, ids: seq<nat>, op: Operation, parseNumber: string -> Option<real>)
    requires Linked(arena) && InArena(arena, ids) && ids != []
    requires op.kind != "sub" && op.kind != "attrib"
    ensures Values(arena, ids, op, parseNumber) == Err(Thrown("Unsuported operation type"))
  {
    assert ids[..1][..0] == [];
    ValuesPrefixFails(arena, ids, op, parseNumber, 1);
  }

  // ---------------------------------------------------------------------
  // The evaluation
  // ---------------------------------------------------------------------

  /** The elements named `operation`, in document order. */
  function OperationIds(arena: seq<XmlElement>, doc: seq<nat>): seq<nat> {
    Keep(doc, (x: nat) => x < |arena| && arena[x].name == "operation")
  }

  function CollectOperations(arena: seq<XmlElement>, doc: seq<nat>): seq<Operation>
    requires InArena(arena, doc)
  {
    var ids := OperationIds(arena, doc);
    KeepInArena(arena, doc, (x: nat) => x < |arena| && arena[x].name == "operation");
    seq(|ids|, i requires 0 <= i < |ids| => FromElement(arena[ids[i]]))
  }

  /** The operations are read from exactly the elements named `operation`,
      in the order the document lists them. */
  lemma CollectOperationsSpec(arena: seq<XmlElement>, doc: seq<nat>)
    requires InArena(arena, doc)
    ensures forall x :: x in OperationIds(arena, doc) <==> x in doc && arena[x].name == "operation"
    ensures Subsequence(OperationIds(arena, doc), doc)
    ensures |CollectOperations(arena, doc)| == |OperationIds(arena, doc)|
    ensures forall i :: 0 <= i < |OperationIds(arena, doc)| ==>
              CollectOperations(arena, doc)[i] == FromElement(arena[OperationIds(arena, doc)[i]])
  {
    KeepMembers(doc, (x: nat) => x < |arena| && arena[x].name == "operation");
    KeepOrder(doc, (x: nat) => x < |arena| && arena[x].name == "operation");
  }

  /** The number computed for one operation: the elements whose `name`
      attribute matches its filter, their values, and the reducer. */
  function Evaluate(arena: seq<XmlElement>, doc: seq<nat>, op: Operation,
                    matches: (string, string) -> bool, parseNumber: string -> Option<real>): Result<real, Failure>
    requires Linked(arena) && InArena(arena, doc)
  {
    var ids := AttrFilter(arena, doc, "name", op.filter, matches);
    AttrFilterSpec(arena, doc, "name", op.filter, matches);
    match Values(arena, ids, op, parseNumber)
    case Err(e) => Err(e)
    case Ok(vs) =>
      if vs == [] then Err(AssertionFailed("not values.empty()"))
      else
        match ApplyFunc(op.func, vs)
        case Err(m) => Err(Thrown(m))
        case Ok(v) => Ok(v)
  }

  /** The numbers of all operations, in order; the first failure ends it. */
  function EvaluateAll(arena: seq<XmlElement>, doc: seq<nat>, ops: seq<Operation>,
                       matches: (string, string) -> bool, parseNumber: string -> Option<real>): Result<seq<real>, Failure>
    requires Linked(arena) && InArena(arena, doc)
  {
    if ops == [] then Ok([])
    else
      match EvaluateAll(arena, doc, ops[..|ops| - 1], matches, parseNumber)
      case Err(e) => Err(e)
      case Ok(vs) =>
        match Evaluate(arena, doc, ops[|ops| - 1], matches, parseNumber)
        case Err(e) => Err(e)
        case Ok(v) => Ok(vs + [v])
  }

  lemma {:induction false} EvaluateAllPointwise(arena: seq<XmlElement>, doc: seq<nat>, ops: seq<Operation>,
                                                matches: (string, string) -> bool, parseNumber: string -> Option<real>)
    requires Linked(arena) && InArena(arena, doc)
    ensures EvaluateAll(arena, doc, ops, matches, parseNumber).Ok? ==>
              var vs := EvaluateAll(arena, doc, ops, matches, parseNumber).value;
              |vs| == |ops| &&
              forall i :: 0 <= i < |ops| ==> Evaluate(arena, doc, ops[i], matches, parseNumber) == Ok(vs[i])
  {
    if ops != [] {
      EvaluateAllPointwise(arena, doc, ops[..|ops| - 1], matches, parseNumber);
    }
  }

  /** The `result` element for one operation: a child of the root at level
      1 with the single attribute `name` and the formatted number. */
  function ResultElement(op: Operation, v: real, format: real -> string): XmlElement {
    XmlElement("result", Some(0), 1, [], [XmlAttribute("name", op.name)], format(v))
  }

  /** The output tree: the `results` root first, then one `result` per
      operation. */
  function ResultTree(ops: seq<Operation>, vs: seq<real>, format: real -> string): (tree: seq<XmlElement>)
    requires |ops| == |vs|
    ensures Ordered(tree)
  {
    [XmlElement("results", None, 0, seq(|ops|, i => i + 1), [], [])] +
    seq(|ops|, i requires 0 <= i < |ops| => ResultElement(ops[i], vs[i], format))
  }

  /** The results tree is a well-formed tree in the parser's sense: one
      root at level 0 whose children, in operation order, are the result
      elements at level 1. */
  lemma ResultTreeShape(ops: seq<Operation>, vs: seq<real>, format: real -> string)
    requires |ops| == |vs|
    ensures var tree := ResultTree(ops, vs, format);
      |tree| == |ops| + 1 &&
      tree[0].name == "results" && tree[0].parent == None && tree[0].level == 0 &&
      (forall i :: 0 <= i < |ops| ==> tree[0].children[i] == i + 1) &&
      (forall i :: 0 <= i < |ops| ==>
         tree[i + 1].name == "result" && tree[i + 1].level == 1 && tree[i + 1].parent == Some(0) &&
         tree[i + 1].attributes == [XmlAttribute("name", ops[i].name)] &&
         tree[i + 1].content == format(vs[i]) && tree[i + 1].children == []) &&
      ParentLinks(tree) && ChildLinks(tree)
  {
    var tree := ResultTree(ops, vs, format);
    forall x | 0 <= x < |tree| ensures ParentLink(tree, x) {
      if x > 0 {
        assert tree[0].children[x - 1] == x;
      }
    }
  }

  /** `eval` on the two parsed documents. */
  function EvalDocs(dataArena: seq<XmlElement>, dataDoc: seq<nat>, opArena: seq<XmlElement>, opDoc: seq<nat>,
                    matches: (string, string) -> bool, parseNumber: string -> Option<real>,
                    format: real -> string): Result<string, Failure>
    requires Linked(dataArena) && InArena(dataArena, dataDoc) && InArena(opArena, opDoc)
  {
    var ops := CollectOperations(opArena, opDoc);
    if ops == [] then Err(AssertionFailed("not operations.empty()"))
    else
      match ResultsOf(dataArena, dataDoc, ops, matches, parseNumber, format)
      case Err(e) => Err(e)
      case Ok(tree) => Ok(RenderElement(tree, 0))
  }

  /** Inputs the parser can take: whenever tokenizing ends, no token needs
      an open element while none is open. */
  predicate WellNested(text: string) {
    Lex(text).Ok? ==> Parsable(Lex(text).value)
  }

  /** `eval` from the two texts to the printed results. */
  function EvalSpec(data: string, ops: string, matches: (string, string) -> bool,
                    parseNumber: string -> Option<real>, format: real -> string): Result<string, Failure>
    requires WellNested(data) && WellNested(ops)
  {
    if Lex(data).Err? || Lex(ops).Err? then Err(Diverges)
    else
      var d := Run(Lex(data).value);
      var o := Run(Lex(ops).value);
      ParsedLinked(Lex(data).value);
      ParsedLinked(Lex(ops).value);
      EvalDocs(d.arena, d.doc, o.arena, o.doc, matches, parseNumber, format)
  }

  /** An operation whose filter selects no element fails the `values`
      assertion. */
  lemma NoCandidatesFails(arena: seq<XmlElement>, doc: seq<nat>, op: Operation,
                          matches: (string, string) -> bool, parseNumber: string -> Option<real>)
    requires Linked(arena) && InArena(arena, doc)
    requires forall i :: 0 <= i < |doc| ==> !matches(GetAttribute(arena[doc[i]].attributes, "name"), op.filter)
    ensures Evaluate(arena, doc, op, matches, parseNumber) == Err(AssertionFailed("not values.empty()"))
  {
    KeepNone(doc, (x: nat) => x < |arena| && matches(GetAttribute(arena[x].attributes, "name"), op.filter));
    assert AttrFilter(arena, doc, "name", op.filter, matches) == [];
  }

  /** A number for an operation is its reducer applied to one value per
      selected element, and there is at least one. */
  lemma EvaluateOk(arena: seq<XmlElement>, doc: seq<nat>, op: Operation,
                   matches: (string, string) -> bool, parseNumber: string -> Option<real>)
    requires Linked(arena) && InArena(arena, doc)
    requires Evaluate(arena, doc, op, matches, parseNumber).Ok?
    ensures var ids := AttrFilter(arena, doc, "name", op.filter, matches);
      ids != [] && InArena(arena, ids) && Values(arena, ids, op, parseNumber).Ok? &&
      var vs := Values(arena, ids, op, parseNumber).value;
      |vs| == |ids| && op.func in {"min", "max", "sum", "average"} &&
      Evaluate(arena, doc, op, matches, parseNumber).value == ApplyFunc(op.func, vs).value
  {
    var ids := AttrFilter(arena, doc, "name", op.filter, matches);
    AttrFilterSpec(arena, doc, "name", op.filter, matches);
    ValuesPointwise(arena, ids, op, parseNumber);
    ApplyFuncNames(op.func, Values(arena, ids, op, parseNumber).value);
  }

  /** Without any `operation` element the evaluation fails its assertion;
      otherwise a successful one prints the results tree of numbers that
      are, one by one, the numbers of the operations. */
  lemma EvalDocsResult(dataArena: seq<XmlElement>, dataDoc: seq<nat>, opArena: seq<XmlElement>, opDoc: seq<nat>,
                       matches: (string, string) -> bool, parseNumber: string -> Option<real>,
                       format: real -> string)
    requires Linked(dataArena) && InArena(dataArena, dataDoc) && InArena(opArena, opDoc)
    ensures var ops := CollectOperations(opArena, opDoc);
      var r := EvalDocs(dataArena, dataDoc, opArena, opDoc, matches, parseNumber, format);
      (ops == [] ==> r == Err(AssertionFailed("not operations.empty()"))) &&
      (r.Ok? ==> ops != [] &&
                 EvaluateAll(dataArena, dataDoc, ops, matches, parseNumber).Ok? &&
                 var vs := EvaluateAll(dataArena, dataDoc, ops, matches, parseNumber).value;
                 |vs| == |ops| &&
                 (forall i :: 0 <= i < |ops| ==> Evaluate(dataArena, dataDoc, ops[i], matches, parseNumber) == Ok(vs[i])) &&
                 r.value == RenderElement(ResultTree(ops, vs, format), 0))
  {
    var ops := CollectOperations(opArena, opDoc);
    EvaluateAllPointwise(dataArena, dataDoc, ops, matches, parseNumber);
  }

  /** Reading the printed results back gives the `results` start tag, one
      `result` element per operation with its `name` attribute, and the end
      tag, provided operation names hold no '"' and the numbers print as
      digits, signs and points, which the tokenizer passes over. */
  lemma ResultsReadBack(ops: seq<Operation>, vs: seq<real>, format: real -> string)
    requires |ops| == |vs|
    requires forall i :: 0 <= i < |ops| ==> '"' !in ops[i].name && Quiet(format(vs[i]))
    ensures Lex(RenderElement(ResultTree(ops, vs, format), 0)) ==
              Ok(ElementTokens(ResultTree(ops, vs, format), 0))
  {
    var tree := ResultTree(ops, vs, format);
    assert Readable(tree) by {
      forall x | 0 <= x < |tree| ensures ReadableElement(tree[x]) {
        if x > 0 {
          assert tree[x].attributes == [XmlAttribute("name", ops[x - 1].name)];
        }
      }
    }
    RenderDocLex(tree, [0]);
  }

  // ---------------------------------------------------------------------
  // The evaluation, imperatively
  // ---------------------------------------------------------------------

  lemma CollectSnoc(arena: seq<XmlElement>, d: seq<nat>, x: nat)
    requires InArena(arena, d + [x]) && x < |arena|
    ensures InArena(arena, d)
    ensures CollectOperations(arena, d + [x]) ==
            CollectOperations(arena, d) + (if arena[x].name == "operation" then [FromElement(arena[x])] else [])
  {
    assert forall i :: 0 <= i < |d| ==> d[i] == (d + [x])[i];
    assert (d + [x])[|d|] == x;
    var keep := (y: nat) => y < |arena| && arena[y].name == "operation";
    KeepAppend(d, [x], keep);
    assert Keep([x], keep) == (if keep(x) then [x] else []) + Keep([], keep);
  }

  /** The loop that collects the operations (eval.hpp:44-48). */
  method CollectOps(arena: seq<XmlElement>, doc: XmlDoc) returns (operations: seq<Operation>)
    requires InArena(arena, doc.data)
    ensures operations == CollectOperations(arena, doc.data)
  {
    operations := [];
    for i := 0 to |doc.data|
      invariant InArena(arena, doc.data[..i])
      invariant operations == CollectOperations(arena, doc.data[..i])
    {
      assert doc.data[..i + 1] == doc.data[..i] + [doc.data[i]];
      CollectSnoc(arena, doc.data[..i], doc.data[i]);
      var e := doc.data[i];
      if arena[e].name == "operation" {
        operations := operations + [FromElement(arena[e])];
      }
    }
    assert doc.data[..|doc.data|] == doc.data;
  }

  /** The loop that gathers one operation's values (eval.hpp:58-71). */
  method GatherValues(arena: seq<XmlElement>, elements: seq<nat>, op: Operation,
                      parseNumber: string -> Option<real>) returns (values: Result<seq<real>, Failure>)
    requires Linked(arena) && InArena(arena, elements)
    ensures values == Values(arena, elements, op, parseNumber)
  {
    var vs: seq<real> := [];
    for i := 0 to |elements|
      invariant InArena(arena, elements[..i])
      invariant Values(arena, elements[..i], op, parseNumber) == Ok(vs)
    {
      var e := elements[i];
      assert elements[..i + 1][..i] == elements[..i];
      ghost var step := ValueOf(arena, e, op, parseNumber);
      assert Values(arena, elements[..i + 1], op, parseNumber) ==
             if step.Err? then Err(step.error) else Ok(vs + [step.value]);
      if op.kind == "sub" {
        var child := GetChild(arena, arena[e].children, op.attrib);
        if child.Err? {
          ValuesPrefixFails(arena, elements, op, parseNumber, i + 1);
          return Err(Thrown(child.error));
        }
        var v := parseNumber(child.value.content);
        if v.None? {
          ValuesPrefixFails(arena, elements, op, parseNumber, i + 1);
          return Err(Thrown("stod"));
        }
        vs := vs + [v.value];
        continue;
      }
      if op.kind == "attrib" {
        var v := parseNumber(GetAttribute(arena[e].attributes, op.attrib));
        if v.None? {
          ValuesPrefixFails(arena, elements, op, parseNumber, i + 1);
          return Err(Thrown("stod"));
        }
        vs := vs + [v.value];
        continue;
      }
      ValuesPrefixFails(arena, elements, op, parseNumber, i + 1);
      return Err(Thrown("Unsuported operation type"));
    }
    assert elements[..|elements|] == elements;
    values := Ok(vs);
  }

  lemma {:induction false} EvaluateAllPrefixFails(arena: seq<XmlElement>, doc: seq<nat>, ops: seq<Operation>,
                                                  matches: (string, string) -> bool,
                                                  parseNumber: string -> Option<real>, k: nat)
    requires Linked(arena) && InArena(arena, doc) && k <= |ops|
    requires EvaluateAll(arena, doc, ops[..k], matches, parseNumber).Err?
    ensures EvaluateAll(arena, doc, ops, matches, parseNumber) == EvaluateAll(arena, doc, ops[..k], matches, parseNumber)
  {
    if k < |ops| {
      assert ops[..|ops| - 1][..k] == ops[..k];
      EvaluateAllPrefixFails(arena, doc, ops[..|ops| - 1], matches, parseNumber, k);
    } else {
      assert ops[..k] == ops;
    }
  }

  /** Evaluating one more operation of `ops` extends the numbers of the
      ones before it, or fails with its own failure. */
  lemma EvaluateAllStep(arena: seq<XmlElement>, doc: seq<nat>, ops: seq<Operation>, k: nat,
                        matches: (string, string) -> bool, parseNumber: string -> Option<real>)
    requires Linked(arena) && InArena(arena, doc) && k < |ops|
    requires EvaluateAll(arena, doc, ops[..k], matches, parseNumber).Ok?
    ensures EvaluateAll(arena, doc, ops[..k + 1], matches, parseNumber) ==
            match Evaluate(arena, doc, ops[k], matches, parseNumber)
            case Err(e) => Err(e)
            case Ok(v) => Ok(EvaluateAll(arena, doc, ops[..k], matches, parseNumber).value + [v])
  {
    assert ops[..k + 1][..k] == ops[..k] && ops[..k + 1][k] == ops[k];
  }

  /** One more operation adds one `result` element at the end and makes it
      the last child of the root. */
  lemma ResultTreeSnoc(ops: seq<Operation>, vs: seq<real>, op: Operation, v: real, format: real -> string)
    requires |ops| == |vs|
    ensures var tree := ResultTree(ops, vs, format);
      ResultTree(ops + [op], vs + [v], format) ==
      (tree + [ResultElement(op, v, format)])[0 := tree[0].(children := tree[0].children + [|tree|])]
  {
    var tree := ResultTree(ops, vs, format);
    var big := ResultTree(ops + [op], vs + [v], format);
    var other := (tree + [ResultElement(op, v, format)])[0 := tree[0].(children := tree[0].children + [|tree|])];
    assert big[0].children == tree[0].children + [|tree|];
    forall i | 0 <= i < |big| ensures big[i] == other[i] {
      if 0 < i < |tree| {
        assert big[i] == ResultElement(ops[i - 1], vs[i - 1], format);
      }
    }
  }

  /** `XML::Parser(XML::Lexer(text).tokenize()).parse()`. */
  method Load(text: string) returns (r: Result<(seq<XmlElement>, XmlDoc), Failure>)
    requires WellNested(text)
    ensures Lex(text).Err? <==> r.Err?
    ensures r.Err? ==> r.error == Diverges
    ensures r.Ok? ==> fresh(r.value.1) && Parsable(Lex(text).value) &&
                      r.value.0 == Run(Lex(text).value).arena && r.value.1.data == Run(Lex(text).value).doc
  {
    var stream := new InputStream(text);
    var lexer := new Lexer(stream);
    assert stream.Rest() == text && lexer.tokens == [];
    var tokens := lexer.Tokenize();
    if tokens.Err? {
      return Err(Diverges);
    }
    assert Lex(text).Ok? && [] + Lex(text).value == Lex(text).value;
    assert tokens.value == Lex(text).value;
    var parser := new Parser(tokens.value);
    var arena, doc := parser.Parse();
    r := Ok((arena, doc));
  }

  /** One operation's number (eval.hpp:56-79): filter, gather, check that
      there are values, reduce. */
  method EvaluateOne(arena: seq<XmlElement>, doc: seq<nat>, op: Operation,
                     matches: (string, string) -> bool, parseNumber: string -> Option<real>)
    returns (r: Result<real, Failure>)
    requires Linked(arena) && InArena(arena, doc)
    ensures r == Evaluate(arena, doc, op, matches, parseNumber)
  {
    var elements := AttrFilter(arena, doc, "name", op.filter, matches);
    AttrFilterSpec(arena, doc, "name", op.filter, matches);
    var values := GatherValues(arena, elements, op, parseNumber);
    if values.Err? {
      return Err(values.error);
    }
    if values.value == [] {
      return Err(AssertionFailed("not values.empty()"));
    }
    var f := ApplyFunc(op.func, values.value);
    if f.Err? {
      return Err(Thrown(f.error));
    }
    r := Ok(f.value);
  }

  /** One `result` element (eval.hpp:74-82): created at level 1 under the
      root, given the `name` attribute and the formatted number, and
      appended to the root's children. */
  method AppendResult(tree: seq<XmlElement>, ghost ops: seq<Operation>, ghost vs: seq<real>, op: Operation, v: real,
                      format: real -> string) returns (tree': seq<XmlElement>)
    requires |ops| == |vs| && tree == ResultTree(ops, vs, format)
    ensures tree' == ResultTree(ops + [op], vs + [v], format)
  {
    var res := XmlElement("result", Some(0), 1, [], [], []);
    res := res.(attributes := res.attributes + [XmlAttribute("name", op.name)]);
    res := res.(content := format(v));
    assert res == ResultElement(op, v, format);
    ResultTreeSnoc(ops, vs, op, v, format);
    tree' := tree + [res];
    tree' := tree'[0 := tree'[0].(children := tree'[0].children + [|tree'| - 1])];
  }

  /** The results tree for all operations, or the first failure. */
  function ResultsOf(arena: seq<XmlElement>, doc: seq<nat>, ops: seq<Operation>,
                     matches: (string, string) -> bool, parseNumber: string -> Option<real>,
                     format: real -> string): Result<seq<XmlElement>, Failure>
    requires Linked(arena) && InArena(arena, doc)
  {
    match EvaluateAll(arena, doc, ops, matches, parseNumber)
    case Err(e) => Err(e)
    case Ok(vs) =>
      EvaluateAllPointwise(arena, doc, ops, matches, parseNumber);
      Ok(ResultTree(ops, vs, format))
  }

  /** After `k` operations: their numbers are `vs` and the tree built so
      far is the results tree of the first `k` operations. */
  ghost predicate Built(arena: seq<XmlElement>, doc: seq<nat>, ops: seq<Operation>, k: nat, vs: seq<real>,
                        tree: seq<XmlElement>, matches: (string, string) -> bool,
                        parseNumber: string -> Option<real>, format: real -> string)
    requires Linked(arena) && InArena(arena, doc)
  {
    k <= |ops| && |vs| == k &&
    EvaluateAll(arena, doc, ops[..k], matches, parseNumber) == Ok(vs) &&
    tree == ResultTree(ops[..k], vs, format)
  }

  lemma BuiltStart(arena: seq<XmlElement>, doc: seq<nat>, ops: seq<Operation>, matches: (string, string) -> bool,
                   parseNumber: string -> Option<real>, format: real -> string)
    requires Linked(arena) && InArena(arena, doc)
    ensures Built(arena, doc, ops, 0, [], [XmlElement("results", None, 0, [], [], [])], matches, parseNumber, format)
  {
    assert ops[..0] == [] && seq(0, i => i + 1) == [];
  }

  lemma BuiltStep(arena: seq<XmlElement>, doc: seq<nat>, ops: seq<Operation>, k: nat, vs: seq<real>,
                  tree: seq<XmlElement>, matches: (string, string) -> bool,
                  parseNumber: string -> Option<real>, format: real -> string, v: real)
    requires Linked(arena) && InArena(arena, doc) && k < |ops|
    requires Built(arena, doc, ops, k, vs, tree, matches, parseNumber, format)
    requires Evaluate(arena, doc, ops[k], matches, parseNumber) == Ok(v)
    ensures Built(arena, doc, ops, k + 1, vs + [v], ResultTree(ops[..k] + [ops[k]], vs + [v], format),
                  matches, parseNumber, format)
  {
    EvaluateAllStep(arena, doc, ops, k, matches, parseNumber);
    assert ops[..k + 1] == ops[..k] + [ops[k]];
  }

  lemma BuiltFails(arena: seq<XmlElement>, doc: seq<nat>, ops: seq<Operation>, k: nat, vs: seq<real>,
                   tree: seq<XmlElement>, matches: (string, string) -> bool,
                   parseNumber: string -> Option<real>, format: real -> string)
    requires Linked(arena) && InArena(arena, doc) && k < |ops|
    requires Built(arena, doc, ops, k, vs, tree, matches, parseNumber, format)
    requires Evaluate(arena, doc, ops[k], matches, parseNumber).Err?
    ensures ResultsOf(arena, doc, ops, matches, parseNumber, format) ==
            Err(Evaluate(arena, doc, ops[k], matches, parseNumber).error)
  {
    EvaluateAllStep(arena, doc, ops, k, matches, parseNumber);
    EvaluateAllPrefixFails(arena, doc, ops, matches, parseNumber, k + 1);
  }

  lemma BuiltDone(arena: seq<XmlElement>, doc: seq<nat>, ops: seq<Operation>, vs: seq<real>,
                  tree: seq<XmlElement>, matches: (string, string) -> bool,
                  parseNumber: string -> Option<real>, format: real -> string)
    requires Linked(arena) && InArena(arena, doc)
    requires Built(arena, doc, ops, |ops|, vs, tree, matches, parseNumber, format)
    ensures ResultsOf(arena, doc, ops, matches, parseNumber, format) == Ok(tree)
  {
    assert ops[..|ops|] == ops;
  }

  /** The loop over the operations (eval.hpp:51-83): the `results` root is
      added to the output document first, then each operation's `result`
      element is created, given its attribute and content, and appended to
      the root's children. */
  method BuildResults(arena: seq<XmlElement>, doc: seq<nat>, operations: seq<Operation>,
                      matches: (string, string) -> bool, parseNumber: string -> Option<real>,
                      format: real -> string) returns (r: Result<(seq<XmlElement>, XmlDoc), Failure>)
    requires Linked(arena) && InArena(arena, doc)
    ensures r.Err? <==> ResultsOf(arena, doc, operations, matches, parseNumber, format).Err?
    ensures r.Err? ==> r.error == ResultsOf(arena, doc, operations, matches, parseNumber, format).error
    ensures r.Ok? ==> r.value.0 == ResultsOf(arena, doc, operations, matches, parseNumber, format).value &&
                      r.value.1.data == [0]
  {
    var results := new XmlDoc();
    var tree := [XmlElement("results", None, 0, [], [], [])];
    results.AddElement(0);
    ghost var vs: seq<real> := [];
    BuiltStart(arena, doc, operations, matches, parseNumber, format);
    for k := 0 to |operations|
      invariant results.data == [0]
      invariant Built(arena, doc, operations, k, vs, tree, matches, parseNumber, format)
    {
      var op := operations[k];
      var value := EvaluateOne(arena, doc, op, matches, parseNumber);
      if value.Err? {
        BuiltFails(arena, doc, operations, k, vs, tree, matches, parseNumber, format);
        return Err(value.error);
      }
      BuiltStep(arena, doc, operations, k, vs, tree, matches, parseNumber, format, value.value);
      tree := AppendResult(tree, operations[..k], vs, op, value.value, format);
      vs := vs + [value.value];
    }
    BuiltDone(arena, doc, operations, vs, tree, matches, parseNumber, format);
    r := Ok((tree, results));
  }

  /** `eval` (eval.hpp:39-85): tokenize and parse both inputs, collect the
      operations, evaluate each into a `result` child of the `results`
      root, and print the results document, whose last element is the
      root. */
  method Eval(data: string, opsText: string, matches: (string, string) -> bool,
              parseNumber: string -> Option<real>, format: real -> string) returns (r: Result<string, Failure>)
    requires WellNested(data) && WellNested(opsText)
    ensures r == EvalSpec(data, opsText, matches, parseNumber, format)
  {
    var dataDocs := Load(data);
    if dataDocs.Err? {
      return Err(Diverges);
    }
    var opsDocs := Load(opsText);
    if opsDocs.Err? {
      return Err(Diverges);
    }
    var dataArena, dataDoc := dataDocs.value.0, dataDocs.value.1;
    var opsArena, opsDoc := opsDocs.value.0, opsDocs.value.1;
    ParsedLinked(Lex(data).value);
    ParsedLinked(Lex(opsText).value);

    var operations := CollectOps(opsArena, opsDoc);
    if operations == [] {
      return Err(AssertionFailed("not operations.empty()"));
    }
    var built := BuildResults(dataArena, dataDoc.data, operations, matches, parseNumber, format);
    if built.Err? {
      return Err(built.error);
    }
    var tree, results := built.value.0, built.value.1;
    var back := results.Back();
    r := Ok(RenderElement(tree, back));
  }
}
