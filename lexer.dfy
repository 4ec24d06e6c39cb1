/** The tokenizer of include/xml/lexer.hpp.

    The input stream is a `seq<char>` with a cursor. The specification
    functions below work on the UNREAD SUFFIX of the stream: `LexStep(s)` is
    one turn of the `while (true)` loop of `Lexer::tokenize` on the remaining
    characters `s`, and `Lex(s)` runs it to the end. The imperative
    `InputStream`, the `Extract*` methods and `Lexer.Tokenize` follow the
    source step by step and are proved to compute `Lex`, with one exception:
    content is read by the corrected scan `ScanContent` (in `GreaterStep` and
    `ExtractContent`), not by `extract_content` as written, which is
    `ContentAsWritten` and which differs when whitespace comes right before
    a '<' (see `ContentSwallowsTag`). */
module Lexer {
  import opened Common

  /** `XML::Token`, the variant of the six token kinds. */
  datatype Token =
    | StartTagBegin(name: string)          // "<name"
    | StartTagEnd                          // ">"
    | CloseTag                             // "/>"
    | Attribute(key: string, value: string)
    | Content(content: string)
    | EndTag(name: string)                 // "</name>"

  /** Where the source never leaves its loop because the stream ran out:
      content without a following '<', an attribute without '=' or without
      its closing quote. */
  datatype LexError = UnterminatedContent | UnterminatedAttribute

  // ---------------------------------------------------------------------
  // Stream primitives on the unread suffix
  // ---------------------------------------------------------------------

  /** How many characters `operator>>` skips before it reads one. */
  function SpaceRun(s: seq<char>): (n: nat)
    ensures n <= |s|
    ensures n == |s| || !IsSpace(s[n])
  {
    if s == [] || !IsSpace(s[0]) then 0 else 1 + SpaceRun(s[1..])
  }

  /** What `SpaceRun` skips is whitespace. */
  lemma {:induction false} SpaceRunSpaces(s: seq<char>)
    ensures forall i :: 0 <= i < SpaceRun(s) ==> IsSpace(s[i])
  {
    if s != [] && IsSpace(s[0]) {
      SpaceRunSpaces(s[1..]);
    }
  }

  /** The length of the run of letters at the front of `s`: what
      `detail::extract_string` consumes (lexer.hpp:70-78). */
  function AlphaRun(s: seq<char>): (n: nat)
    ensures n <= |s|
    ensures n == |s| || !IsAlpha(s[n])
  {
    if s == [] || !IsAlpha(s[0]) then 0 else 1 + AlphaRun(s[1..])
  }

  /** What `AlphaRun` counts are letters. */
  lemma {:induction false} AlphaRunLetters(s: seq<char>)
    ensures AllAlpha(s[..AlphaRun(s)])
  {
    if s != [] && IsAlpha(s[0]) {
      AlphaRunLetters(s[1..]);
      var n := AlphaRun(s[1..]);
      assert s[..n + 1] == [s[0]] + s[1..][..n];
    }
  }

  /** The position of the first `d` in `s`, which `std::getline(stream, x, d)`
      reads up to and consumes. */
  function IndexOf(s: seq<char>, d: char): (r: Option<nat>)
    ensures r.Some? ==> r.value < |s| && s[r.value] == d
  {
    if s == [] then None
    else if s[0] == d then Some(0)
    else match IndexOf(s[1..], d)
      case None => None
      case Some(k) => Some(k + 1)
  }

  /** `IndexOf` finds the first `d`, and None means there is none. */
  lemma {:induction false} IndexOfFirst(s: seq<char>, d: char)
    ensures IndexOf(s, d).Some? ==> d !in s[..IndexOf(s, d).value]
    ensures IndexOf(s, d).None? ==> d !in s
  {
    if s != [] && s[0] != d {
      IndexOfFirst(s[1..], d);
      if IndexOf(s, d).Some? {
        var k := IndexOf(s[1..], d).value;
        assert s[..k + 1] == [s[0]] + s[1..][..k];
      }
    }
  }

  /** The characters of `s` other than whitespace, in order. */
  function Squeeze(s: string): (r: string)
    ensures |r| <= |s|
  {
    if s == [] then []
    else if IsSpace(s[0]) then Squeeze(s[1..])
    else [s[0]] + Squeeze(s[1..])
  }

  /** `Squeeze` leaves no whitespace and adds no character. */
  lemma {:induction false} SqueezeChars(s: string)
    ensures NoSpace(Squeeze(s))
    ensures forall i :: 0 <= i < |Squeeze(s)| ==> Squeeze(s)[i] in s
  {
    if s != [] {
      SqueezeChars(s[1..]);
      var rest := Squeeze(s[1..]);
      forall i | 0 <= i < |rest| ensures rest[i] in s {
        assert rest[i] in s[1..];
      }
    }
  }

  /** `detail::extract_content` as it was evidently meant to work: the
      content is everything up to the next '<', which is not consumed, with
      the whitespace that `operator>>` skips left out. Returns the content
      and the number of characters consumed. (See `ContentAsWritten` for the
      code as written.) */
  function ScanContent(s: seq<char>): (r: Option<(string, nat)>)
    ensures r.Some? ==> r.value.1 < |s| && s[r.value.1] == '<'
  {
    match IndexOf(s, '<')
    case None => None
    case Some(q) => Some((Squeeze(s[..q]), q))
  }

  /** The content ends at the FIRST '<', which it does not contain, and has
      no whitespace; there is none when no '<' follows. */
  lemma ScanContentFirst(s: seq<char>)
    ensures ScanContent(s).None? <==> '<' !in s
    ensures ScanContent(s).Some? ==>
              var (text, q) := ScanContent(s).value;
              '<' !in s[..q] && NoSpace(text) && '<' !in text && (s[0] != '<' && !IsSpace(s[0]) ==> text != [])
  {
    IndexOfFirst(s, '<');
    if ScanContent(s).Some? {
      var q := ScanContent(s).value.1;
      SqueezeChars(s[..q]);
      if s[0] != '<' && !IsSpace(s[0]) {
        assert s[..q][0] == s[0];
      }
    }
  }

  /** `detail::extract_content` as written (lexer.hpp:89-97): while the next
      character is not '<', read one with the whitespace-skipping `>>`.
      None where the source never returns (the stream ends before a '<' is
      seen). Returns the content and the number of characters consumed. */
  function ContentAsWritten(s: seq<char>): Option<(string, nat)>
    decreases |s|, 1
  {
    if s == [] then None
    else if s[0] == '<' then Some(([], 0))
    else ReadAsWritten(s)
  }

  /** The `stream >> c; result << c;` of that loop, then the loop again:
      whitespace is skipped and the next character, whatever it is, even a
      '<', is read into the content. */
  function ReadAsWritten(s: seq<char>): Option<(string, nat)>
    decreases |s|, 0
  {
    if s == [] then None
    else if IsSpace(s[0]) then
      match ReadAsWritten(s[1..])
      case None => None
      case Some(r) => Some((r.0, 1 + r.1))
    else
      match ContentAsWritten(s[1..])
      case None => None
      case Some(r) => Some(([s[0]] + r.0, 1 + r.1))
  }

  /** `detail::extract_attribute` (lexer.hpp:107-116) on a suffix that starts
      at the first letter of the key: `getline` up to '=', `ignore` one
      character (the opening quote), `getline` up to '"'. Returns key, value
      and the number of characters consumed. */
  function ScanAttribute(s: seq<char>): (r: Option<(string, string, nat)>)
    ensures r.Some? ==> 0 < r.value.2 <= |s|
    ensures r.Some? ==> |r.value.0| < r.value.2 && r.value.0 == s[..|r.value.0|]
  {
    match IndexOf(s, '=')
    case None => None
    case Some(q) =>
      var v := if q + 1 < |s| then q + 2 else q + 1;
      match IndexOf(s[v..], '"')
      case None => None
      case Some(e) => Some((s[..q], s[v..][..e], v + e + 1))
  }

  /** The key stops at the first '=' and the value at the first quote after
      it, so neither contains its delimiter; a key that starts with a letter
      is not empty. */
  lemma ScanAttributeChars(s: seq<char>)
    ensures ScanAttribute(s).Some? ==>
              var (key, value, n) := ScanAttribute(s).value;
              '=' !in key && '"' !in value && (IsAlpha(s[0]) ==> key != [])
  {
    IndexOfFirst(s, '=');
    if ScanAttribute(s).Some? {
      var q := IndexOf(s, '=').value;
      var v := if q + 1 < |s| then q + 2 else q + 1;
      IndexOfFirst(s[v..], '"');
    }
  }

  // ---------------------------------------------------------------------
  // The scanning loop
  // ---------------------------------------------------------------------

  /** One turn of the loop: the end of the input, the tokens emitted and
      the number of characters consumed, or a stream that ran out. */
  datatype Step = Stop | Emit(tokens: seq<Token>, used: nat) | Stuck(error: LexError)

  /** One turn of the loop of `Lexer::tokenize` (lexer.hpp:144-181) on the
      unread suffix `s`: `>> c` skips whitespace and reads `c`, then the
      branch for `c` peeks, extracts and emits. */
  function LexStep(s: seq<char>): (r: Step)
    ensures r.Emit? ==> 0 < r.used <= |s|
  {
    var j := SpaceRun(s);
    if j == |s| then Stop else Shifted(Turn(s[j..]), j)
  }

  /** `r` after `j` more characters consumed in front of it. */
  function Shifted(r: Step, j: nat): Step {
    match r
    case Emit(ts, n) => Emit(ts, j + n)
    case _ => r
  }

  /** The branch taken for the character `a[0]` that `>> c` read. */
  function Turn(a: seq<char>): (r: Step)
    requires a != []
    ensures r.Emit? ==> 0 < r.used <= |a|
  {
    var c, t := a[0], a[1..];
    if c == '<' then LessStep(t)
    else if c == '/' then SlashStep(t)
    else if c == '>' then GreaterStep(t)
    else if IsAlpha(c) then LetterStep(a)
    else Emit([], 1)
  }

  /** The branch for '<' (lexer.hpp:146-158), with `t` after it: a start
      tag's name, or an end tag's name and one more character, the closing
      bracket. */
  function LessStep(t: seq<char>): (r: Step)
    ensures r.Emit? && r.used <= 1 + |t|
  {
    if t != [] && IsAlpha(t[0]) then
      var n := AlphaRun(t);
      Emit([StartTagBegin(t[..n])], 1 + n)
    else if t != [] && t[0] == '/' then
      var n := AlphaRun(t[1..]);
      var skip := if 1 + n < |t| then 1 else 0;
      Emit([EndTag(t[1..][..n])], 2 + n + skip)
    else
      Emit([], 1)
  }

  /** The branch for '/' (lexer.hpp:159-164): a `CloseTag` when '>' follows. */
  function SlashStep(t: seq<char>): (r: Step)
    ensures r.Emit? && r.used <= 1 + |t|
  {
    if t != [] && t[0] == '>' then Emit([CloseTag], 2) else Emit([], 1)
  }

  /** The branch for '>' (lexer.hpp:165-171): a `StartTagEnd`, and the
      content up to the next '<' when a letter or digit follows. */
  function GreaterStep(t: seq<char>): (r: Step)
    ensures r.Emit? ==> r.used <= 1 + |t|
  {
    if t != [] && IsAlnum(t[0]) then
      match ScanContent(t)
      case None => Stuck(UnterminatedContent)
      case Some(r) => Emit([StartTagEnd, Content(r.0)], 1 + r.1)
    else
      Emit([StartTagEnd], 1)
  }

  /** The branch for a letter (lexer.hpp:172-177) at the head of `a`: the
      attribute that starts with it. */
  function LetterStep(a: seq<char>): (r: Step)
    ensures r.Emit? ==> 0 < r.used <= |a|
  {
    match ScanAttribute(a)
    case None => Stuck(UnterminatedAttribute)
    case Some(r) => Emit([Attribute(r.0, r.1)], r.2)
  }

  function Prepend(ts: seq<Token>, r: Result<seq<Token>, LexError>): Result<seq<Token>, LexError> {
    match r
    case Ok(rest) => Ok(ts + rest)
    case Err(e) => Err(e)
  }

  /** The shape every token the tokenizer emits has. */
  predicate WellFormed(t: Token) {
    match t
    case StartTagBegin(name) => name != [] && AllAlpha(name)
    case EndTag(name) => AllAlpha(name)
    case Attribute(key, value) => key != [] && IsAlpha(key[0]) && '=' !in key && '"' !in value
    case Content(text) => text != [] && NoSpace(text) && '<' !in text
    case _ => true
  }

  /** The whole token sequence of the unread input `s`: the tokens of each
      turn of the loop, in input order, until only whitespace is left. */
  function Lex(s: seq<char>): Result<seq<Token>, LexError>
    decreases |s|
  {
    match LexStep(s)
    case Stop => Ok([])
    case Stuck(e) => Err(e)
    case Emit(ts, n) => Prepend(ts, Lex(s[n..]))
  }

  /** Every token the tokenizer emits is well formed, and a `Content` token
      only ever comes right after a `StartTagEnd`. */
  lemma {:induction false} LexWellFormed(s: seq<char>)
    ensures Lex(s).Ok? ==> forall i :: 0 <= i < |Lex(s).value| ==> WellFormed(Lex(s).value[i])
    ensures Lex(s).Ok? ==> forall i :: 0 <= i < |Lex(s).value| && Lex(s).value[i].Content? ==>
                             0 < i && Lex(s).value[i - 1] == StartTagEnd
    decreases |s|
  {
    if LexStep(s).Emit? {
      var n := LexStep(s).used;
      LexStepWellFormed(s);
      LexWellFormed(s[n..]);
    }
  }

  /** The tokens of one turn: well formed, with a `Content` token only in
      second place after a `StartTagEnd`. */
  predicate StepWellFormed(r: Step) {
    r.Emit? ==>
      (forall i :: 0 <= i < |r.tokens| ==> WellFormed(r.tokens[i])) &&
      (forall i :: 0 <= i < |r.tokens| && r.tokens[i].Content? ==> i == 1 && r.tokens[0] == StartTagEnd)
  }

  lemma LexStepWellFormed(s: seq<char>)
    ensures StepWellFormed(LexStep(s))
  {
    var j := SpaceRun(s);
    if j < |s| {
      var a := s[j..];
      if a[0] == '<' {
        LessStepWellFormed(a[1..]);
      } else if a[0] == '>' {
        GreaterStepWellFormed(a[1..]);
      } else if IsAlpha(a[0]) {
        ScanAttributeChars(a);
      }
    }
  }

  lemma LessStepWellFormed(t: seq<char>)
    ensures StepWellFormed(LessStep(t))
  {
    AlphaRunLetters(t);
    if t != [] {
      AlphaRunLetters(t[1..]);
    }
  }

  lemma GreaterStepWellFormed(t: seq<char>)
    ensures StepWellFormed(GreaterStep(t))
  {
    ScanContentFirst(t);
  }

  // ---------------------------------------------------------------------
  // Uniqueness of the scans (used to tie the loops below to them)
  // ---------------------------------------------------------------------

  lemma {:induction false} SpaceRunIs(s: seq<char>, k: nat)
    requires k <= |s|
    requires forall i :: 0 <= i < k ==> IsSpace(s[i])
    requires k == |s| || !IsSpace(s[k])
    ensures SpaceRun(s) == k
  {
    if k > 0 {
      SpaceRunIs(s[1..], k - 1);
    }
  }

  lemma {:induction false} AlphaRunIs(s: seq<char>, k: nat)
    requires k <= |s|
    requires AllAlpha(s[..k])
    requires k == |s| || !IsAlpha(s[k])
    ensures AlphaRun(s) == k
  {
    if k > 0 {
      assert s[0] == s[..k][0];
      assert s[1..][..k - 1] == s[..k][1..];
      AlphaRunIs(s[1..], k - 1);
    }
  }

  lemma {:induction false} IndexOfIs(s: seq<char>, d: char, q: nat)
    requires q <= |s|
    requires d !in s[..q]
    requires q == |s| || s[q] == d
    ensures IndexOf(s, d) == if q == |s| then None else Some(q)
  {
    if q > 0 {
      assert s[0] == s[..q][0];
      assert s[1..][..q - 1] == s[..q][1..];
      IndexOfIs(s[1..], d, q - 1);
    }
  }

  lemma {:induction false} SqueezeSnoc(s: string, c: char)
    ensures Squeeze(s + [c]) == Squeeze(s) + (if IsSpace(c) then [] else [c])
  {
    if s == [] {
      assert [c][1..] == [];
    } else {
      assert (s + [c])[1..] == s[1..] + [c];
      SqueezeSnoc(s[1..], c);
    }
  }

  lemma PrependPrepend(a: seq<Token>, b: seq<Token>, r: Result<seq<Token>, LexError>)
    ensures Prepend(a, Prepend(b, r)) == Prepend(a + b, r)
  {
    if r.Ok? {
      assert a + (b + r.value) == (a + b) + r.value;
    }
  }

  /** `LexStep` on the unread part `data[p..]` of a stream whose next `j`
      characters are whitespace, in terms of positions in `data`. */
  lemma StepAt(data: seq<char>, p: nat, j: nat)
    requires p <= |data| && j == SpaceRun(data[p..]) && p + j < |data|
    ensures LexStep(data[p..]) == Shifted(Turn(data[p + j..]), j)
    ensures Turn(data[p + j..]) ==
              var c, t := data[p + j], data[p + j + 1..];
              if c == '<' then LessStep(t)
              else if c == '/' then SlashStep(t)
              else if c == '>' then GreaterStep(t)
              else if IsAlpha(c) then LetterStep(data[p + j..])
              else Emit([], 1)
  {
    assert data[p..][j..] == data[p + j..];
    assert data[p + j..][1..] == data[p + j + 1..];
  }

  /** One turn of the loop keeps the tokens emitted so far followed by the
      tokens of the unread input equal to the tokens of the whole input. */
  lemma Advance(start: seq<char>, before: seq<Token>, t0: seq<Token>, s: seq<char>, ts: seq<Token>, n: nat, rest: seq<char>)
    requires Prepend(before, Lex(start)) == Prepend(t0, Lex(s))
    requires LexStep(s) == Emit(ts, n)
    requires n <= |s| && rest == s[n..]
    ensures Prepend(before, Lex(start)) == Prepend(t0 + ts, Lex(rest))
  {
    PrependPrepend(t0, ts, Lex(s[n..]));
  }

  // ---------------------------------------------------------------------
  // What the tokenizer emits for each construct of the input
  // ---------------------------------------------------------------------

  lemma LexEmit(s: seq<char>, ts: seq<Token>, n: nat, rest: seq<char>)
    requires LexStep(s) == Emit(ts, n) && s[n..] == rest
    ensures Lex(s) == Prepend(ts, Lex(rest))
  {
  }

  /** A turn of the loop that starts at a character other than whitespace
      takes the branch for that character. */
  lemma StepFirst(c: char, t: seq<char>)
    requires !IsSpace(c)
    ensures LexStep([c] + t) ==
              if c == '<' then LessStep(t)
              else if c == '/' then SlashStep(t)
              else if c == '>' then GreaterStep(t)
              else if IsAlpha(c) then LetterStep([c] + t)
              else Emit([], 1)
  {
    var s := [c] + t;
    assert s[0] == c;
    assert SpaceRun(s) == 0;
    assert s[1..] == t && s[0..] == s;
  }

  lemma StepOpenTag(name: string, rest: seq<char>)
    requires name != [] && AllAlpha(name) && (rest == [] || !IsAlpha(rest[0]))
    ensures LexStep(['<'] + (name + rest)) == Emit([StartTagBegin(name)], 1 + |name|)
    ensures (['<'] + (name + rest))[1 + |name|..] == rest
  {
    var t := name + rest;
    StepFirst('<', t);
    AlphaRunIs(t, |name|);
    assert t[..|name|] == name && t[0] == name[0];
  }

  /** '<' and a letter: one `StartTagBegin` with the whole run of letters
      as its name (lexer.hpp:146-150, 70-78). */
  lemma LexOpenTag(name: string, rest: seq<char>)
    requires name != [] && AllAlpha(name) && (rest == [] || !IsAlpha(rest[0]))
    ensures Lex(['<'] + (name + rest)) == Prepend([StartTagBegin(name)], Lex(rest))
  {
    StepOpenTag(name, rest);
    LexEmit(['<'] + (name + rest), [StartTagBegin(name)], 1 + |name|, rest);
  }

  lemma StepEndTag(name: string, c: char, rest: seq<char>)
    requires AllAlpha(name) && !IsAlpha(c)
    ensures LexStep(['<'] + (['/'] + (name + ([c] + rest)))) == Emit([EndTag(name)], 3 + |name|)
    ensures (['<'] + (['/'] + (name + ([c] + rest))))[3 + |name|..] == rest
  {
    var u := name + ([c] + rest);
    var t := ['/'] + u;
    StepFirst('<', t);
    assert t[0] == '/' && t[1..] == u;
    AlphaRunIs(u, |name|);
    assert u[..|name|] == name;
  }

  /** "</", a run of letters and one more character: one `EndTag` with that
      name and no `StartTagEnd`; the character after the name is skipped
      whatever it is (lexer.hpp:151-157). */
  lemma LexEndTag(name: string, c: char, rest: seq<char>)
    requires AllAlpha(name) && !IsAlpha(c)
    ensures Lex(['<'] + (['/'] + (name + ([c] + rest)))) == Prepend([EndTag(name)], Lex(rest))
  {
    StepEndTag(name, c, rest);
    LexEmit(['<'] + (['/'] + (name + ([c] + rest))), [EndTag(name)], 3 + |name|, rest);
  }

  /** "/>": exactly one `CloseTag`, and the '>' is consumed with it
      (lexer.hpp:159-163). */
  lemma LexCloseTag(rest: seq<char>)
    ensures Lex(['/'] + (['>'] + rest)) == Prepend([CloseTag], Lex(rest))
  {
    StepFirst('/', ['>'] + rest);
    assert (['/'] + (['>'] + rest))[2..] == rest;
    LexEmit(['/'] + (['>'] + rest), [CloseTag], 2, rest);
  }

  /** '>' always gives a `StartTagEnd`, and a `Content` token follows it
      exactly when the next character is a letter or a digit
      (lexer.hpp:165-171). */
  lemma LexGreater(t: seq<char>)
    ensures Lex(['>'] + t).Ok? ==>
              var ts := Lex(['>'] + t).value;
              ts != [] && ts[0] == StartTagEnd &&
              ((|ts| > 1 && ts[1].Content?) <==> (t != [] && IsAlnum(t[0])))
  {
    StepFirst('>', t);
    if !(t != [] && IsAlnum(t[0])) {
      assert (['>'] + t)[1..] == t;
      LexEmit(['>'] + t, [StartTagEnd], 1, t);
      LexWellFormed(t);
    }
  }

  lemma StepContent(text: string, rest: seq<char>)
    requires text != [] && IsAlnum(text[0]) && '<' !in text
    ensures LexStep(['>'] + (text + (['<'] + rest))) ==
            Emit([StartTagEnd, Content(Squeeze(text))], 1 + |text|)
    ensures (['>'] + (text + (['<'] + rest)))[1 + |text|..] == ['<'] + rest
  {
    var t := text + (['<'] + rest);
    StepFirst('>', t);
    assert t[..|text|] == text && t[0] == text[0];
    IndexOfIs(t, '<', |text|);
  }

  /** '>', content that starts with a letter or digit, and '<': the content
      token holds the characters up to the '<' without their whitespace,
      and the '<' is left for the next turn (lexer.hpp:165-171, 89-97). */
  lemma LexContent(text: string, rest: seq<char>)
    requires text != [] && IsAlnum(text[0]) && '<' !in text
    ensures Lex(['>'] + (text + (['<'] + rest))) ==
            Prepend([StartTagEnd, Content(Squeeze(text))], Lex(['<'] + rest))
  {
    StepContent(text, rest);
    LexEmit(['>'] + (text + (['<'] + rest)), [StartTagEnd, Content(Squeeze(text))], 1 + |text|, ['<'] + rest);
  }

  lemma ScanAttributeOf(key: string, value: string, rest: seq<char>)
    requires '=' !in key && '"' !in value
    ensures ScanAttribute(key + (['=', '"'] + (value + (['"'] + rest)))) ==
            Some((key, value, |key| + 3 + |value|))
  {
    var u := value + (['"'] + rest);
    var s := key + (['=', '"'] + u);
    assert s[..|key|] == key && s[|key|] == '=';
    IndexOfIs(s, '=', |key|);
    assert s[|key| + 2..] == u;
    assert u[..|value|] == value && u[|value|] == '"';
    IndexOfIs(u, '"', |value|);
  }

  lemma StepAttribute(key: string, value: string, rest: seq<char>)
    requires key != [] && IsAlpha(key[0]) && '=' !in key && '"' !in value
    ensures LexStep(key + (['=', '"'] + (value + (['"'] + rest)))) ==
            Emit([Attribute(key, value)], |key| + 3 + |value|)
    ensures (key + (['=', '"'] + (value + (['"'] + rest))))[|key| + 3 + |value|..] == rest
  {
    var s := key + (['=', '"'] + (value + (['"'] + rest)));
    assert s[0] == key[0];
    StepLetter(s);
    ScanAttributeOf(key, value, rest);
    assert s[|key| + 3 + |value|..] == rest;
  }

  /** A key starting with a letter, '=', a quote, a value and a quote: one
      `Attribute` with that key and value, all five parts consumed
      (lexer.hpp:172-176, 107-116). */
  lemma LexAttribute(key: string, value: string, rest: seq<char>)
    requires key != [] && IsAlpha(key[0]) && '=' !in key && '"' !in value
    ensures Lex(key + (['=', '"'] + (value + (['"'] + rest)))) == Prepend([Attribute(key, value)], Lex(rest))
  {
    StepAttribute(key, value, rest);
    LexEmit(key + (['=', '"'] + (value + (['"'] + rest))), [Attribute(key, value)], |key| + 3 + |value|, rest);
  }

  lemma StepLetter(a: seq<char>)
    requires a != [] && IsAlpha(a[0])
    ensures LexStep(a) == LetterStep(a)
  {
    assert SpaceRun(a) == 0 && a[0..] == a;
  }

  /** A character that no branch of the loop acts on: not whitespace, not
      a letter and none of '<', '/', '>'. Digits, '.' and '-' are such
      characters. */
  predicate Inert(c: char) {
    !IsSpace(c) && !IsAlpha(c) && c != '<' && c != '/' && c != '>'
  }

  /** Text the loop reads past without emitting anything. */
  predicate Quiet(w: seq<char>) {
    forall i :: 0 <= i < |w| ==> IsSpace(w[i]) || Inert(w[i])
  }

  lemma SpaceRunCons(c: char, t: seq<char>)
    requires IsSpace(c)
    ensures SpaceRun([c] + t) == 1 + SpaceRun(t)
  {
    assert ([c] + t)[0] == c && ([c] + t)[1..] == t;
  }

  /** A turn of the loop that starts at whitespace skips it and then does
      what it does on the rest. */
  lemma StepSpaceHead(c: char, t: seq<char>)
    requires IsSpace(c)
    ensures LexStep([c] + t) == Shifted(LexStep(t), 1)
  {
    var s := [c] + t;
    SpaceRunCons(c, t);
    var j := SpaceRun(t);
    if j < |t| {
      assert s[1 + j..] == t[j..];
      assert LexStep(s) == Shifted(Turn(t[j..]), 1 + j);
      assert LexStep(t) == Shifted(Turn(t[j..]), j);
    } else {
      assert LexStep(s) == Stop && LexStep(t) == Stop;
    }
  }

  /** Whitespace in front of the input changes nothing: `>>` skips it. */
  lemma LexSpaceHead(c: char, t: seq<char>)
    requires IsSpace(c)
    ensures Lex([c] + t) == Lex(t)
  {
    StepSpaceHead(c, t);
    match LexStep(t)
    case Emit(ts, n) =>
      assert ([c] + t)[1 + n..] == t[n..];
      LexEmit([c] + t, ts, 1 + n, t[n..]);
      LexEmit(t, ts, n, t[n..]);
    case _ =>
  }

  /** An inert character is read and dropped (the source's loop has no
      branch for it). */
  lemma LexInertHead(c: char, t: seq<char>)
    requires Inert(c)
    ensures Lex([c] + t) == Lex(t)
  {
    StepFirst(c, t);
    assert ([c] + t)[1..] == t;
    LexEmit([c] + t, [], 1, t);
    if Lex(t).Ok? {
      assert [] + Lex(t).value == Lex(t).value;
    }
  }

  /** Quiet text in front of the input changes nothing. */
  lemma {:induction false} LexQuiet(w: seq<char>, t: seq<char>)
    requires Quiet(w)
    ensures Lex(w + t) == Lex(t)
  {
    if w != [] {
      assert w + t == [w[0]] + (w[1..] + t);
      assert Quiet(w[1..]) by {
        forall i | 0 <= i < |w[1..]| ensures IsSpace(w[1..][i]) || Inert(w[1..][i]) {
          assert w[1..][i] == w[i + 1];
        }
      }
      LexQuiet(w[1..], t);
      if IsSpace(w[0]) {
        LexSpaceHead(w[0], w[1..] + t);
      } else {
        LexInertHead(w[0], w[1..] + t);
      }
    } else {
      assert w + t == t;
    }
  }

  /** '>' followed by anything but a letter or digit: a `StartTagEnd` only,
      and the next character is left for the next turn. */
  lemma LexGreaterPlain(t: seq<char>)
    requires t == [] || !IsAlnum(t[0])
    ensures Lex(['>'] + t) == Prepend([StartTagEnd], Lex(t))
  {
    StepFirst('>', t);
    assert (['>'] + t)[1..] == t;
    LexEmit(['>'] + t, [StartTagEnd], 1, t);
  }

  // ---------------------------------------------------------------------
  // extract_content as written
  // ---------------------------------------------------------------------

  /** `ContentAsWritten` swallows a '<' that follows whitespace, and reads
      on into what follows it: on `1 </v></d>` (`x` = '1', `u` = `/v></d>`)
      the content is `1</v>` and the end tag `</v>` is consumed. */
  lemma ContentSwallowsTag(x: char, u: seq<char>, r: (string, nat))
    requires !IsSpace(x) && x != '<'
    requires ContentAsWritten(u) == Some(r)
    ensures ContentAsWritten([x, ' ', '<'] + u) == Some(([x, '<'] + r.0, 3 + r.1))
  {
    var s := [x, ' ', '<'] + u;
    var s1 := s[1..];
    var s2 := s1[1..];
    assert s[0] == x && s1[0] == ' ' && s2[0] == '<' && s2[1..] == u;
    assert ReadAsWritten(s2) == Some((['<'] + r.0, 1 + r.1));
    assert ReadAsWritten(s1) == Some((['<'] + r.0, 2 + r.1));
    assert ReadAsWritten(s) == Some(([x] + (['<'] + r.0), 3 + r.1));
    assert [x] + (['<'] + r.0) == [x, '<'] + r.0;
  }

  /** On the same input the intended scan stops before the '<', with the
      content `x`. */
  lemma ScanStopsAtTag(x: char, u: seq<char>)
    requires !IsSpace(x) && x != '<'
    ensures ScanContent([x, ' ', '<'] + u) == Some(([x], 2))
  {
    var s := [x, ' ', '<'] + u;
    assert s[..2] == [x, ' '];
    IndexOfIs(s, '<', 2);
    assert Squeeze([x, ' ']) == [x] by {
      assert [x, ' '][1..] == [' '];
      assert [' '][1..] == [];
    }
  }

  /** Without whitespace right before the first '<', the code as written
      and the intended scan agree. */
  lemma {:induction false} ContentAgrees(s: seq<char>, q: nat)
    requires q < |s| && s[q] == '<' && '<' !in s[..q] && (q == 0 || !IsSpace(s[q - 1]))
    ensures ContentAsWritten(s) == Some((Squeeze(s[..q]), q))
    decreases |s|, 1
  {
    if q > 0 {
      assert s[0] == s[..q][0];
      ReadAgrees(s, q);
    }
  }

  lemma {:induction false} ReadAgrees(s: seq<char>, q: nat)
    requires 0 < q < |s| && s[q] == '<' && '<' !in s[..q] && !IsSpace(s[q - 1])
    ensures ReadAsWritten(s) == Some((Squeeze(s[..q]), q))
    decreases |s|, 0
  {
    var u := s[1..];
    assert u[..q - 1] == s[..q][1..];
    assert s[..q] == [s[0]] + u[..q - 1];
    if IsSpace(s[0]) {
      ReadAgrees(u, q - 1);
    } else {
      if q > 1 {
        assert u[q - 2] == s[q - 1];
      }
      ContentAgrees(u, q - 1);
    }
  }

  /** The corrected scan and the code as written agree when no whitespace
      comes right before the first '<'. */
  lemma ContentAsIntended(s: seq<char>, q: nat)
    requires q < |s| && s[q] == '<' && '<' !in s[..q] && (q == 0 || !IsSpace(s[q - 1]))
    ensures ContentAsWritten(s) == ScanContent(s)
  {
    ContentAgrees(s, q);
    IndexOfIs(s, '<', q);
  }

  // ---------------------------------------------------------------------
  // The stream and the lexer, imperatively
  // ---------------------------------------------------------------------

  /** The `std::istream` the lexer reads: a fixed text and a read cursor. */
  class InputStream {
    const data: seq<char>
    var pos: nat

    ghost predicate Valid()
      reads this
    {
      pos <= |data|
    }

    /** The characters not read yet. */
    function Rest(): seq<char>
      reads this
      requires Valid()
    {
      data[pos..]
    }

    constructor (text: seq<char>)
      ensures Valid() && data == text && pos == 0
    {
      data := text;
      pos := 0;
    }

    /** `peek()`: the next character, left in the stream; None at the end. */
    function Peek(): (c: Option<char>)
      reads this
      requires Valid()
      ensures c.Some? <==> Rest() != []
      ensures c.Some? ==> c.value == Rest()[0]
    {
      if pos < |data| then Some(data[pos]) else None
    }

    /** `operator>>(char &)`: skip whitespace, then read one character;
        None when only whitespace was left. */
    method Read() returns (c: Option<char>)
      requires Valid()
      modifies this`pos
      ensures Valid()
      ensures var k := SpaceRun(old(Rest()));
              (k == |old(Rest())| ==> c == None && pos == |data|) &&
              (k < |old(Rest())| ==> c == Some(old(Rest())[k]) && pos == old(pos) + k + 1)
    {
      ghost var s := Rest();
      while pos < |data| && IsSpace(data[pos])
        invariant old(pos) <= pos <= |data|
        invariant forall i :: old(pos) <= i < pos ==> IsSpace(data[i])
      {
        pos := pos + 1;
      }
      SpaceRunIs(s, pos - old(pos));
      if pos == |data| {
        c := None;
      } else {
        c := Some(data[pos]);
        pos := pos + 1;
      }
    }

    /** `ignore()`: drop one character, if there is one. */
    method Ignore()
      requires Valid()
      modifies this`pos
      ensures Valid()
      ensures pos == if old(pos) < |data| then old(pos) + 1 else old(pos)
    {
      if pos < |data| {
        pos := pos + 1;
      }
    }

    /** `putback(c)` of the character just read. */
    method Putback()
      requires Valid() && 0 < pos
      modifies this`pos
      ensures Valid() && pos == old(pos) - 1
    {
      pos := pos - 1;
    }

    /** `std::getline(*this, line, delim)`: the characters up to `delim`,
        which is consumed and not part of the line; None when the stream
        ends first. */
    method GetLine(delim: char) returns (line: Option<string>)
      requires Valid()
      modifies this`pos
      ensures Valid()
      ensures match IndexOf(old(Rest()), delim)
              case None => line == None && pos == |data|
              case Some(q) => line == Some(old(Rest())[..q]) && pos == old(pos) + q + 1
    {
      ghost var s := Rest();
      var acc := [];
      while pos < |data| && data[pos] != delim
        invariant old(pos) <= pos <= |data|
        invariant acc == data[old(pos)..pos]
        invariant delim !in acc
      {
        acc := acc + [data[pos]];
        pos := pos + 1;
      }
      assert s[..pos - old(pos)] == acc;
      IndexOfIs(s, delim, pos - old(pos));
      if pos == |data| {
        line := None;
      } else {
        pos := pos + 1;
        line := Some(acc);
      }
    }
  }

  /** `detail::extract_string` (lexer.hpp:70-78): read letters while the next
      character is one. */
  method ExtractString(stream: InputStream) returns (name: string)
    requires stream.Valid()
    modifies stream`pos
    ensures stream.Valid()
    ensures var n := AlphaRun(old(stream.Rest()));
            name == old(stream.Rest())[..n] && stream.pos == old(stream.pos) + n
  {
    ghost var s := stream.Rest();
    name := [];
    while stream.Peek().Some? && IsAlpha(stream.Peek().value)
      invariant stream.Valid() && old(stream.pos) <= stream.pos
      invariant name == stream.data[old(stream.pos)..stream.pos]
      invariant AllAlpha(name)
      decreases |stream.data| - stream.pos
    {
      var c := stream.Read();
      name := name + [c.value];
    }
    assert s[..stream.pos - old(stream.pos)] == name;
    AlphaRunIs(s, stream.pos - old(stream.pos));
  }

  /** `detail::extract_content` (lexer.hpp:89-97) as corrected: reads up to
      the next '<' and leaves whitespace out, as `ScanContent` specifies;
      None when the stream ends before a '<'. Unlike the source loop, it
      reads with `Ignore` and drops whitespace itself, so a '<' after
      whitespace is not swallowed. */
  method ExtractContent(stream: InputStream) returns (text: Option<string>)
    requires stream.Valid()
    modifies stream`pos
    ensures stream.Valid()
    ensures match ScanContent(old(stream.Rest()))
            case None => text == None
            case Some(r) => text == Some(r.0) && stream.pos == old(stream.pos) + r.1
  {
    ghost var s := stream.Rest();
    var acc := [];
    while stream.Peek() != Some('<')
      invariant stream.Valid() && old(stream.pos) <= stream.pos
      invariant '<' !in stream.data[old(stream.pos)..stream.pos]
      invariant acc == Squeeze(stream.data[old(stream.pos)..stream.pos])
      decreases |stream.data| - stream.pos
    {
      var c := stream.Peek();
      if c.None? {
        assert s == stream.data[old(stream.pos)..stream.pos];
        return None;
      }
      ghost var before := stream.data[old(stream.pos)..stream.pos];
      stream.Ignore();
      assert stream.data[old(stream.pos)..stream.pos] == before + [c.value];
      SqueezeSnoc(before, c.value);
      if !IsSpace(c.value) {
        acc := acc + [c.value];
      }
    }
    assert s[..stream.pos - old(stream.pos)] == stream.data[old(stream.pos)..stream.pos];
    IndexOfIs(s, '<', stream.pos - old(stream.pos));
    text := Some(acc);
  }

  /** `detail::extract_attribute` (lexer.hpp:107-116); None when the stream
      ends before the '=' or before the closing quote. */
  method ExtractAttribute(stream: InputStream) returns (kv: Option<(string, string)>)
    requires stream.Valid()
    modifies stream`pos
    ensures stream.Valid()
    ensures match ScanAttribute(old(stream.Rest()))
            case None => kv == None
            case Some(r) => kv == Some((r.0, r.1)) && stream.pos == old(stream.pos) + r.2
  {
    ghost var s := stream.Rest();
    var key := stream.GetLine('=');
    if key.None? {
      return None;
    }
    stream.Ignore(); // the opening quote
    ghost var v := stream.pos - old(stream.pos);
    assert stream.Rest() == s[v..];
    var value := stream.GetLine('"');
    if value.None? {
      return None;
    }
    kv := Some((key.value, value.value));
  }

  /** `XML::Lexer`: the stream it reads and the tokens emitted so far. */
  class Lexer {
    var tokens: seq<Token>
    const stream: InputStream

    constructor (stream: InputStream)
      ensures this.stream == stream && tokens == []
    {
      this.stream := stream;
      tokens := [];
    }

    /** The state right after `>> c` read the character at `data[p + j]`,
        `j` whitespace characters after the cursor `p`. */
    ghost predicate ReadAt(data: seq<char>, p: nat, j: nat)
      reads this, stream
    {
      stream.Valid() && stream.data == data && p <= |data| && j == SpaceRun(data[p..])
      && p + j < |data| && stream.pos == p + j + 1
    }

    /** The branch of the loop that took the step `r` from the cursor `p`. */
    twostate predicate Emitted(p: nat, r: Step)
      reads this, stream
    {
      stream.Valid() && r.Emit? && tokens == old(tokens) + r.tokens && stream.pos == p + r.used
    }

    /** The branch for `c == '<'` (lexer.hpp:146-158): a start tag's name, or
        an end tag's name and the closing bracket after it. */
    method OnLess(ghost data: seq<char>, ghost p: nat, ghost j: nat)
      requires ReadAt(data, p, j) && data[p + j] == '<'
      modifies this`tokens, stream`pos
      ensures Emitted(p + j, LessStep(data[p + j + 1..]))
    {
      ghost var t := stream.Rest();
      var next := stream.Peek();
      if next.Some? && IsAlpha(next.value) {
        // we are reading the name of a StartTagBegin
        var name := ExtractString(stream);
        tokens := tokens + [StartTagBegin(name)];
      } else if next == Some('/') {
        assert SpaceRun(t) == 0;
        var _ := stream.Read();
        assert stream.Rest() == t[1..];
        // we are reading the name of an EndTag
        var name := ExtractString(stream);
        tokens := tokens + [EndTag(name)];
        stream.Ignore(); // skip the closing bracket
      } else {
        assert tokens == old(tokens) + [];
      }
    }

    /** The branch for `c == '/'` (lexer.hpp:159-164): a `CloseTag` when a
        '>' follows. */
    method OnSlash(ghost data: seq<char>, ghost p: nat, ghost j: nat)
      requires ReadAt(data, p, j) && data[p + j] == '/'
      modifies this`tokens, stream`pos
      ensures Emitted(p + j, SlashStep(data[p + j + 1..]))
    {
      if stream.Peek() == Some('>') {
        stream.Ignore(); // consume the '>'
        tokens := tokens + [CloseTag];
      } else {
        assert tokens == old(tokens) + [];
      }
    }

    /** The branch for `c == '>'` (lexer.hpp:165-171): a `StartTagEnd`, and
        a `Content` when a letter or digit follows. */
    method OnGreater(ghost data: seq<char>, ghost p: nat, ghost j: nat) returns (error: Option<LexError>)
      requires ReadAt(data, p, j) && data[p + j] == '>'
      modifies this`tokens, stream`pos
      ensures stream.Valid()
      ensures error == None ==> Emitted(p + j, GreaterStep(data[p + j + 1..]))
      ensures error != None ==> GreaterStep(data[p + j + 1..]) == Stuck(error.value)
    {
      ghost var t := stream.Rest();
      error := None;
      tokens := tokens + [StartTagEnd];
      var next := stream.Peek();
      if next.Some? && IsAlnum(next.value) {
        var text := ExtractContent(stream);
        if text.None? {
          return Some(UnterminatedContent);
        }
        tokens := tokens + [Content(text.value)];
        assert tokens == old(tokens) + [StartTagEnd, Content(text.value)];
      }
    }

    /** The branch for a letter (lexer.hpp:172-177): put it back and read a
        whole attribute. */
    method OnLetter(ghost data: seq<char>, ghost p: nat, ghost j: nat) returns (error: Option<LexError>)
      requires ReadAt(data, p, j) && IsAlpha(data[p + j])
      modifies this`tokens, stream`pos
      ensures stream.Valid()
      ensures error == None ==> Emitted(p + j, LetterStep(data[p + j..]))
      ensures error != None ==> LetterStep(data[p + j..]) == Stuck(error.value)
    {
      error := None;
      stream.Putback();
      assert stream.Rest() == data[p + j..];
      // we are reading an Attribute
      var kv := ExtractAttribute(stream);
      if kv.None? {
        return Some(UnterminatedAttribute);
      }
      tokens := tokens + [Attribute(kv.value.0, kv.value.1)];
    }

    /** One turn of the `while (true)` loop of `Lexer::tokenize`
        (lexer.hpp:145-180): read a character with `>>` and take the branch
        for it. `done` is the end of the input; `error` a stream that ran out
        inside content or an attribute. */
    method Next() returns (done: bool, error: Option<LexError>)
      requires stream.Valid()
      modifies this`tokens, stream`pos
      ensures stream.Valid()
      ensures match LexStep(old(stream.Rest()))
              case Stop => done && error == None && tokens == old(tokens)
              case Stuck(e) => !done && error == Some(e)
              case Emit(ts, n) => !done && error == None && tokens == old(tokens) + ts && stream.pos == old(stream.pos) + n
    {
      ghost var data, p := stream.data, stream.pos;
      assert stream.Rest() == data[p..];
      done, error := false, None;
      var c := stream.Read();
      if c.None? {
        return true, None;
      }
      ghost var j := SpaceRun(data[p..]);
      StepAt(data, p, j);
      if c.value == '<' {
        OnLess(data, p, j);
      } else if c.value == '/' {
        OnSlash(data, p, j);
      } else if c.value == '>' {
        error := OnGreater(data, p, j);
      } else if IsAlpha(c.value) {
        error := OnLetter(data, p, j);
      } else {
        assert tokens == old(tokens) + [];
      }
    }

    /** `Lexer::tokenize` (lexer.hpp:142-183): scan the stream to its end,
        appending the tokens to `tokens`. The result is the token sequence
        `Lex` gives for the unread input, after the tokens already there. The
        `continue` statements of the source only skip its end-of-file test,
        which the next whitespace-skipping read makes again here. */
    method Tokenize() returns (r: Result<seq<Token>, LexError>)
      requires stream.Valid()
      modifies this, stream
      ensures stream.Valid()
      ensures r == Prepend(old(tokens), Lex(old(stream.Rest())))
      ensures r.Ok? ==> tokens == r.value
    {
      ghost var start := stream.Rest();
      while true
        invariant stream.Valid()
        invariant Prepend(old(tokens), Lex(start)) == Prepend(tokens, Lex(stream.Rest()))
        decreases |stream.data| - stream.pos
      {
        ghost var s := stream.Rest();
        ghost var t0 := tokens;
        var done, error := Next();
        if done {
          assert Lex(s) == Ok([]) && tokens + [] == tokens;
          break;
        }
        if error.Some? {
          assert Lex(s) == Err(error.value);
          return Err(error.value);
        }
        Advance(start, old(tokens), t0, s, tokens[|t0|..], |s| - |stream.Rest()|, stream.Rest());
        assert t0 + tokens[|t0|..] == tokens;
      }
      r := Ok(tokens);
    }
  }
}
