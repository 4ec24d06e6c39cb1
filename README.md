# YAXP core in Dafny

YAXP reads a small subset of XML, builds a tree from it, and evaluates
"operations" over a data document. Each operation picks elements by a
regular expression on their `name` attribute, reads one number from each
(from a child's content or from an attribute), and reduces the numbers
with `min`, `max`, `sum` or `average`. The results are printed as a
`results` XML tree.

This project models that pipeline, stage by stage, and proves what each
stage does.

- `common.dfy` (module `Common`): `Option`, `Result`, and the ASCII
  character classes that `isspace`, `isalpha` and `isalnum` test.
- `lexer.dfy` (module `Lexer`): the tokenizer of `include/xml/lexer.hpp`.
  - `Lex(s)` is a functional specification of the scan over the unread
    text `s`. It is built from one turn of the `while (true)` loop
    (`LexStep`) and one function per branch.
  - `InputStream` is a class holding the text and a cursor. It separates
    the whitespace-skipping `>>` (`Read`) from `peek`, `ignore`, `putback`
    and `getline`, which do not skip.
  - `Lexer` is a class with the token list. `Lexer.Tokenize` runs the
    loop and is proved to compute `Lex`.
  - Lemmas state what each construct of the input turns into.
- `parser.dfy` (module `Parser`): the document model and the tree builder
  of `include/xml/parser.hpp`.
  - Elements live in an arena, a sequence in creation order. Parents,
    children, the stack of open elements and the document hold indices
    into it, where the source holds `shared_ptr`s.
  - `Run(ts)` specifies the builder token by token. `Parser.Parse` is the
    imperative loop, proved equal to `Run`.
  - `Inv` collects the structural invariants the builder keeps.
- `operation.dfy` (module `Operation`): the operation descriptor of
  `include/operation/operation.hpp`.
- `output.dfy` (module `Output`): the printers of `include/xml/output.hpp`.
  - Rendering is string concatenation.
  - The main property is a round trip: the tokenizer reads a rendered
    tree back as the token sequence of that tree. Content is the
    exception, because the tokenizer only takes content that directly
    follows `>`, and the printer puts it on a line of its own.
- `eval.dfy` (module `Eval`): `apply_func` and `eval` of
  `include/operation/eval.hpp`.
  - `EvalSpec` is the whole evaluation as a function of the two input
    texts.
  - The method `Eval` follows the source's loops and is proved equal to
    `EvalSpec`.
  - Failures are values: an exception is `Thrown(message)` and a failed
    `assert` is `AssertionFailed(condition)`.

Three library services are parameters of the evaluation:
- `matches(text, pattern)` is `std::regex_match`;
- `parseNumber` is `std::stod`, returning `None` where it throws;
- `format` prints a number with `std::fixed` and `std::setprecision(2)`.

## Model

| member | source | states |
|---|---|---|
| Lexer.AlphaRunLetters | include/xml/lexer.hpp:70-78 | the run of letters `extract_string` consumes is all letters; with `AlphaRun`'s own contract, it stops at the first non-letter, which it does not consume |
| Lexer.ExtractString | include/xml/lexer.hpp:70-78 | the loop over `peek`/`>>` returns exactly the maximal run of letters at the cursor and advances the cursor by its length |
| Lexer.IndexOfFirst | include/xml/lexer.hpp:107-116 | `getline` up to a delimiter stops at the first occurrence of the delimiter; no delimiter means none occurs |
| Lexer.ScanAttributeChars | include/xml/lexer.hpp:107-116 | an attribute's key holds no '=' and its value no '"'; a key that starts with a letter is not empty |
| Lexer.ExtractAttribute | include/xml/lexer.hpp:107-116 | `getline` to '=', `ignore` one character, `getline` to '"' give the key and value `ScanAttribute` specifies and consume its count; a stream that ends first is reported |
| Lexer.ScanContentFirst | include/xml/lexer.hpp:89-97 | content runs up to the first '<', which it does not include; it holds no whitespace; it is not empty when it starts with a letter or digit; there is none when no '<' follows |
| Lexer.SqueezeChars | include/xml/lexer.hpp:92-94 | the content token holds no whitespace, and every character it holds comes from the input |
| Lexer.ExtractContent | include/xml/lexer.hpp:89-97 | the content loop returns the content `ScanContent` specifies and leaves the cursor on the '<' |
| Lexer.ContentSwallowsTag | include/xml/lexer.hpp:89-97 | as written, whitespace right before '<' makes `extract_content` read the '<' and the tag after it into the content |
| Lexer.ScanStopsAtTag | include/xml/lexer.hpp:89-97 | on the same input, the intended scan stops before the '<' |
| Lexer.ContentAsIntended | include/xml/lexer.hpp:89-97 | the code as written and the intended scan agree whenever no whitespace comes right before the first '<' |
| Lexer.InputStream.Peek | include/xml/lexer.hpp:147 | `peek` returns the next character without consuming it, or nothing at the end |
| Lexer.InputStream.Read | include/xml/lexer.hpp:145 | `>>` skips whitespace, then reads one character; it reads nothing when only whitespace is left |
| Lexer.InputStream.Ignore | include/xml/lexer.hpp:156 | `ignore` drops exactly one character, if there is one |
| Lexer.InputStream.GetLine | include/xml/lexer.hpp:110-114 | `getline` returns the text up to the first delimiter and consumes the delimiter |
| Lexer.LexOpenTag | include/xml/lexer.hpp:146-150 | '<' and a letter give one `StartTagBegin` named by the whole run of letters |
| Lexer.LexEndTag | include/xml/lexer.hpp:151-157 | "</", a run of letters and one more character give one `EndTag` with that name; the extra character is skipped and no `StartTagEnd` is emitted |
| Lexer.LexCloseTag | include/xml/lexer.hpp:159-163 | "/>" gives exactly one `CloseTag`, and the '>' is consumed |
| Lexer.LexGreater | include/xml/lexer.hpp:165-171 | '>' always gives a `StartTagEnd` first; a `Content` token follows if and only if the next character is a letter or digit |
| Lexer.LexContent | include/xml/lexer.hpp:165-171 | '>', content and '<' give `StartTagEnd` and the content without whitespace; the '<' is left for the next turn |
| Lexer.LexAttribute | include/xml/lexer.hpp:172-176 | a key, '=', a quote, a value and a quote give one `Attribute` with that key and value, and all of it is consumed |
| Lexer.LexSpaceHead | include/xml/lexer.hpp:145 | whitespace in front of the input changes no token, because `>>` skips it |
| Lexer.LexInertHead | include/xml/lexer.hpp:144-181 | a character no branch acts on is read and dropped |
| Lexer.LexQuiet | include/xml/lexer.hpp:144-181 | text made only of whitespace and such characters changes no token |
| Lexer.LexWellFormed | include/xml/lexer.hpp:142-183 | every emitted token is well formed (start-tag names non-empty and letters only; end-tag names letters only, possibly empty, as for `</>` or `</ a>`; keys without '=', values without '"', content without whitespace or '<'), and a `Content` token only ever follows a `StartTagEnd` |
| Lexer.Lexer.OnLess | include/xml/lexer.hpp:146-158 | the '<' branch emits what `LessStep` specifies and consumes as much |
| Lexer.Lexer.OnSlash | include/xml/lexer.hpp:159-164 | the '/' branch emits what `SlashStep` specifies and consumes as much |
| Lexer.Lexer.OnGreater | include/xml/lexer.hpp:165-171 | the '>' branch emits what `GreaterStep` specifies, or reports content that never ends |
| Lexer.Lexer.OnLetter | include/xml/lexer.hpp:172-177 | the letter branch puts the letter back and emits the attribute `LetterStep` specifies, or reports an attribute that never ends |
| Lexer.Lexer.Next | include/xml/lexer.hpp:144-181 | one turn of the loop ends the scan, fails, or appends the tokens of `LexStep` and advances by its count |
| Lexer.Lexer.Tokenize | include/xml/lexer.hpp:142-183 | the token list becomes the old tokens followed by `Lex` of the unread input, in input order |
| Parser.GetAttributeFirst | include/xml/parser.hpp:42-50 | `get_attribute` returns the value of the first attribute with the key, whatever follows it |
| Parser.GetAttributeMissing | include/xml/parser.hpp:47-49 | without an attribute of that key the result is the empty string |
| Parser.GetAttributeAppend | include/xml/parser.hpp:42-50 | attributes added after the first one with the key do not change the result |
| Parser.GetChildFirst | include/xml/parser.hpp:52-57 | `get_child` returns the first child, in child order, with the name |
| Parser.GetChildMissing | include/xml/parser.hpp:58 | without such a child it fails with "Child not found" |
| Parser.XmlDoc.constructor | include/xml/parser.hpp:62-69 | a new document is empty |
| Parser.XmlDoc.Size | include/xml/parser.hpp:83 | `size` is the number of entries |
| Parser.XmlDoc.Back | include/xml/parser.hpp:71 | `back` is the last entry of a non-empty document |
| Parser.XmlDoc.At | include/xml/parser.hpp:85-88 | `operator[]` requires an index below the size and returns that entry |
| Parser.XmlDoc.PushBack | include/xml/parser.hpp:90-92 | `push_back` appends at the end and changes nothing else |
| Parser.XmlDoc.AddElement | include/xml/parser.hpp:94 | `add_element` appends at the end and changes nothing else |
| Parser.KeepMembers | include/xml/parser.hpp:108-110 | `copy_if` keeps exactly the entries its predicate accepts |
| Parser.KeepOrder | include/xml/parser.hpp:108-110 | `copy_if` keeps entries in document order: the result is a subsequence of the input |
| Parser.KeepAppend | include/xml/parser.hpp:108-110 | filtering a concatenation filters each part |
| Parser.NameFilterSpec | include/xml/parser.hpp:105-112 | `name_filter` keeps exactly the elements whose name full-matches the pattern, as an order-preserving subsequence of the document |
| Parser.AttrFilterSpec | include/xml/parser.hpp:123-132 | `attr_filter` keeps exactly the elements whose attribute full-matches the pattern, as an order-preserving subsequence of the document |
| Parser.AttrFilterMissing | include/xml/parser.hpp:129 | an element without the attribute is kept exactly when the empty string matches |
| Parser.StepToken | include/xml/parser.hpp:158-183 | every token leaves the stack naming elements that exist |
| Parser.Run | include/xml/parser.hpp:154-186 | after a token sequence, the stack height is the number of opening tokens minus closing ones |
| Parser.OpenArena | include/xml/parser.hpp:161-171 | a start tag creates a root at level 0 when the stack is empty; otherwise the new element's parent is the stack top, its level is the stack size, and it becomes the top's last child; nothing else changes |
| Parser.AttributeAppends | include/xml/parser.hpp:172-173 | an `Attribute` token appends to the attributes of the element on top of the stack and changes nothing else |
| Parser.ContentLastWins | include/xml/parser.hpp:174-175 | a `Content` token overwrites the top element's content, so the last one wins |
| Parser.RunCounts | include/xml/parser.hpp:154-186 | there is one element per opening token and one document entry per closing token |
| Parser.EndTagNameIgnored | include/xml/parser.hpp:176-181 | an `EndTag` acts exactly like a `CloseTag`, whatever name it carries |
| Parser.OpenKeeps | include/xml/parser.hpp:161-171 | opening an element keeps the tree invariants |
| Parser.CloseKeeps | include/xml/parser.hpp:176-181 | closing an element keeps the tree invariants |
| Parser.PayloadKeeps | include/xml/parser.hpp:172-175 | changing attributes or content keeps the tree invariants |
| Parser.StepKeeps | include/xml/parser.hpp:158-183 | every token keeps the tree invariants |
| Parser.RunKeeps | include/xml/parser.hpp:154-186 | after any token sequence the builder's state satisfies the invariants: parent, level and child links agree; the stack is ordered by level; the document is distinct and disjoint from the stack; every child is closed before its parent |
| Parser.RootIffLevelZero | include/xml/parser.hpp:163-168 | an element has no parent exactly when it is at nesting level 0 |
| Parser.ChildBeforeParent | include/xml/parser.hpp:176-181 | in the document every element comes after its children |
| Parser.BalancedDoc | include/xml/parser.hpp:154-186 | once every opened element is closed, the document lists every element exactly once |
| Parser.LastClosedIsRoot | include/xml/parser.hpp:176-181 | once every opened element is closed, the last document entry is a root (no parent) |
| Parser.BelowClosed | include/xml/parser.hpp:176-181 | every descendant of a closed element (reached by parent links) was closed before it |
| Parser.DescendantBeforeAncestor | include/xml/parser.hpp:176-181 | in the document every element comes after all of its descendants |
| Parser.Parser.Parse | include/xml/parser.hpp:154-186 | the imperative loop returns the elements and the document of `Run` |
| Parser.Visit | include/xml/parser.hpp:158-183 | the action for one token changes the elements, the stack and the document as `StepToken` specifies |
| Operation.FromElementFirstWins | include/operation/operation.hpp:16-22 | each of the five fields holds the value of the first attribute with the same key |
| Operation.FromElementMissing | include/operation/operation.hpp:17-21 | a field without its attribute is empty; there are no defaults |
| Operation.FromElementReadsAttributes | include/operation/operation.hpp:16-22 | the descriptor depends only on the element's attributes |
| Output.TokenTextShape | include/xml/output.hpp:10-34 | every printed token starts with the name of its kind and ends with its name, content or value |
| Output.Indent | include/xml/output.hpp:43 | indentation is `n` spaces |
| Output.RenderElementShape | include/xml/output.hpp:42-57 | an element's text starts with `2*level` spaces, '<' and the name, and ends with the closing tag at the same indentation; the content line is there exactly when the content is not empty |
| Output.AttributesLex | include/xml/output.hpp:37-39 | printed attributes read back as the same attributes, in stored order |
| Output.OpenLex | include/xml/output.hpp:42-51 | the opening line reads back as the start tag, the attributes and `StartTagEnd`; the content line reads back as nothing |
| Output.CloseLex | include/xml/output.hpp:54-55 | the closing line reads back as an `EndTag` with the element's name |
| Output.RenderLex | include/xml/output.hpp:42-63 | a printed subtree reads back as the tokens of that subtree, children in order |
| Output.ChildrenLex | include/xml/output.hpp:52-53 | printed children, each followed by a newline, read back as their tokens in order |
| Output.RenderDocLex | include/xml/output.hpp:65-67 | a printed document reads back as the tokens of its last element only |
| Output.ParsedOrdered | include/xml/output.hpp:42-63 | every tree the parser builds can be printed: children come later than their parent |
| Eval.MinOfIsLeast | include/operation/eval.hpp:28-29 | `min` returns an element of the data that is no greater than any element |
| Eval.MaxOfIsGreatest | include/operation/eval.hpp:30-31 | `max` returns an element of the data that is no smaller than any element |
| Eval.SumBounds | include/operation/eval.hpp:32-33 | bounds on every value bound the sum by the count times each bound |
| Eval.AverageBetween | include/operation/eval.hpp:34-35 | the average lies between the minimum and the maximum |
| Eval.ApplyFuncNames | include/operation/eval.hpp:27-37 | exactly the four names succeed; any other fails with "Unsupported function operation: " and the name |
| Eval.ParsedLinked | include/operation/eval.hpp:40-41 | the parsed data document's children and entries all name existing elements |
| Eval.ValuesPointwise | include/operation/eval.hpp:58-71 | there is one value per selected element, and each is that element's value |
| Eval.ValuesPrefixFails | include/operation/eval.hpp:58-71 | the first element that fails ends the evaluation with its failure |
| Eval.UnsupportedTypeFails | include/operation/eval.hpp:70 | an operation of another type fails with "Unsuported operation type" as soon as an element is selected |
| Eval.GatherValues | include/operation/eval.hpp:58-71 | the loop over the selected elements computes `Values`: by child content for `sub`, by attribute for `attrib` |
| Eval.CollectOperationsSpec | include/operation/eval.hpp:44-48 | the operations come from exactly the elements named `operation`, in document order |
| Eval.CollectOps | include/operation/eval.hpp:44-48 | the loop collects the operations `CollectOperations` specifies |
| Eval.NoCandidatesFails | include/operation/eval.hpp:56-72 | an operation whose filter selects nothing fails the `values` assertion |
| Eval.EvaluateOk | include/operation/eval.hpp:56-79 | an operation's number is its reducer over one value per selected element; at least one element is selected and the function name is known |
| Eval.EvaluateAllPointwise | include/operation/eval.hpp:54-83 | the numbers of all operations are those of each operation, in operation order |
| Eval.EvaluateAllPrefixFails | include/operation/eval.hpp:54-83 | the first operation that fails ends the evaluation with its failure |
| Eval.EvaluateOne | include/operation/eval.hpp:56-79 | filtering, gathering, the emptiness check and the reducer compute `Evaluate` |
| Eval.ResultTree | include/operation/eval.hpp:51-82 | the results tree is printable: each child is a later element |
| Eval.ResultTreeShape | include/operation/eval.hpp:51-82 | the results tree is one `results` root at level 0; it has one `result` child per operation, in operation order, at level 1, with the single attribute `name` and the formatted number; parent and child links agree |
| Eval.AppendResult | include/operation/eval.hpp:74-82 | one `result` element is added as the root's last child |
| Eval.BuildResults | include/operation/eval.hpp:51-83 | the loop over the operations builds `ResultsOf`, or fails with the first failure; the output document holds only the root |
| Eval.EvalDocsResult | include/operation/eval.hpp:49-84 | with no `operation` element the evaluation fails its assertion; a successful one prints the results tree of the operations' numbers, one by one |
| Eval.ResultsReadBack | include/operation/eval.hpp:84 | the printed results read back as the `results` tree's tokens when names hold no '"' and numbers print as digits, signs and points |
| Eval.Load | include/operation/eval.hpp:40-41 | tokenizing and parsing a text gives `Run` of its tokens, or `Diverges` where the tokenizer never ends |
| Eval.Eval | include/operation/eval.hpp:39-85 | the imperative evaluation computes `EvalSpec` from the two texts |

## Left out

- src/eval.cpp is not part of this model. It handles the command line, the usage message, `exit`, and opening the input files.
- `std::regex_match`, `std::stod` and printing with `std::setprecision(2)` are parameters, not modelled. The regular-expression engine, number parsing and formatting are library code.
- The message of the exception `std::stod` throws is modelled as "stod". The real message is implementation-defined.
- `double` arithmetic is modelled with `real`, so rounding is not modelled.
- Ownership through `shared_ptr` and the parent/child reference cycles are modelled as arena indices. Aliasing is preserved, because every holder of an element holds the same index. Lifetimes are not modelled.
- `get_child` returns a copy of the child. The model returns the element value.
- The iterator members of `XML_Doc` (`begin`, `end`) and its `const` overloads are not modelled. The model reads the document's sequence directly.
- End of input: the tokenizer's `eof()` test is modelled as "the next whitespace-skipping read finds nothing".
- The source's loop never ends when the input ends inside content or an attribute (it keeps reading a failed stream). The model reports an error, and `Eval` returns `Diverges` for it.
- The source re-runs the branch of the previous character after a failed `>>`. The model does not reproduce this artefact. It shows only when the input ends with a '>' followed by whitespace alone (an extra `StartTagEnd`), or right after an attribute value (a loop that never ends). On an empty or whitespace-only input the very first `>> c` fails, and the source then tests a `c` that was never initialised (include/xml/lexer.hpp:143-145), which is undefined behaviour; the model gives no tokens.
- Parser.Parser.Parse: requires `Parsable` tokens. The source calls `top()` on an empty stack for an attribute, content or closing token that comes while no element is open, which is undefined behaviour.
- Eval.Eval: requires both inputs to be well nested in the sense of `Parsable`, for the same reason.
- Eval.ApplyFunc: requires data for `min`, `max` and `average`. The source dereferences an empty range for `min` and `max`, and divides by zero for `average`. `eval` never calls it on empty data, because it asserts first.
- Lexer.ExtractContent, Lexer.Lex, Eval.EvalSpec: they use the corrected content scan `Lexer.ScanContent`, not `extract_content` as written (include/xml/lexer.hpp:92-94). So do `Lexer.GreaterStep`, `Lexer.Lexer.Tokenize`, `Eval.Load` and `Eval.Eval`, which build on them. The code as written is `Lexer.ContentAsWritten`; `Lexer.ContentSwallowsTag` shows where the two differ (whitespace right before a '<'), and `Lexer.ContentAsIntended` shows they agree otherwise. The "content without '<'" part of `Lexer.LexWellFormed` holds for the corrected scan only.
- Parser.NameFilter, Parser.AttrFilter, Eval.Evaluate: `std::regex` throws `std::regex_error` when the pattern is not a valid regular expression (for example `M.*(`), even when the document is empty. The model takes the matcher as a total parameter, so this error path is not modelled.
- Eval.ApplyFunc, Eval.Evaluate: `std::stod` also accepts "nan", "inf" and "infinity", and `min`, `max` and `average` over such values follow IEEE rules. `real` has no NaN or infinity, so these are not modelled: the number parser parameter returns a `real`, which is always finite.
- The input is read as one `char` per byte, as the source does. Multi-byte UTF-8 text is a sequence of bytes there, so `std::isalpha` and `std::isalnum` see its bytes one at a time. The model's character classes are ASCII only, and it does not model the locale or bytes above 127.
- A failed `assert` is an `AssertionFailed` result, as in a build with assertions enabled. A build with `NDEBUG` would go on.
- The `ostream` mechanics of output.hpp (`ostream_iterator`, `std::copy`) are modelled as string concatenation.
- The printers for single tokens are modelled. No printer exists for the `Token` variant as a whole.
- Output.RenderLex: content is left out of the tokens read back. The printer puts content on a line of its own after '>' and a newline, and the tokenizer only takes content that directly follows '>'.

## Findings

| source | as written | input that shows it | evidently intended | confidence | as-written member | corrected member |
|---|---|---|---|---|---|---|
| include/xml/lexer.hpp:92-94 | the loop tests `peek() != '<'`, then reads with the whitespace-skipping `>>`; after whitespace, that read takes the '<' itself and carries on into the tag | `<d><v>1 </v></d>`: the content of `v` becomes `1</v>`, the end tag of `v` is lost, and `</d>` closes `v` | content stops before the next '<' and leaves it in the stream; whitespace is left out | high, not executed | Lexer.ContentSwallowsTag | Lexer.ScanContentFirst |
