/**
 * The message syntax of `message.ts`: a recursive-descent parser with
 * context-dependent quoting, the printer behind `mapText`, and the renderer.
 * The parser is specified on the text still to be read; class `Cursor` of
 * module `MessageCursor` is the parser that walks over it.
 */
module Message {
  import opened Outcome
  import opened JsText

  datatype Kind = Plural | Select

  datatype Node =
    | Text(text: string)
    | Arg(name: string, number: bool)
    | Pound
    | Branch(kind: Kind, name: string, cases: seq<Case>)

  /** One `selector {body}`; a list of them is the `cases` object in enumeration order. */
  datatype Case = Case(selector: string, body: seq<Node>)

  datatype Why =
    | ExpectedName
    | Expected(wanted: char)
    | UnclosedQuote
    | UnexpectedBrace
    | UnsupportedType(found: string)
    | UnclosedArgument
    | NeedsOther(name: string)

  /** A refused message; `left` counts the characters that were not read. */
  datatype MessageError = MessageError(why: Why, left: nat)

  // ----- the `cases` object -----

  predicate IsDigits(s: string) {
    forall i :: 0 <= i < |s| ==> '0' <= s[i] <= '9'
  }

  function Decimal(s: string): nat
    requires IsDigits(s)
  {
    if s == "" then 0 else 10 * Decimal(s[..|s| - 1]) + (s[|s| - 1] as int - '0' as int)
  }

  /** An array index in the sense of ECMAScript: a JavaScript object lists these keys first. */
  predicate IsIndex(key: string) {
    key != "" && IsDigits(key) && (key == "0" || key[0] != '0') && Decimal(key) < 0xFFFF_FFFF
  }

  /** A new key `a` is listed ahead of a present key `b` even though it arrives later. */
  predicate Precedes(a: string, b: string) {
    IsIndex(a) && (IsIndex(b) ==> Decimal(a) < Decimal(b))
  }

  /** Assignment to a key of the object: overwrite in place, or add in enumeration order. */
  function Put(cases: seq<Case>, c: Case): seq<Case> {
    if cases == [] then [c]
    else if cases[0].selector == c.selector then [c] + cases[1..]
    else if Precedes(c.selector, cases[0].selector) then [c] + cases
    else [cases[0]] + Put(cases[1..], c)
  }

  function Find(cases: seq<Case>, selector: string): (i: Option<nat>)
    ensures i.Some? ==> i.value < |cases| && cases[i.value].selector == selector
  {
    if cases == [] then None
    else if cases[0].selector == selector then Some(0)
    else match Find(cases[1..], selector)
      case None => None
      case Some(i) => Some(i + 1)
  }

  predicate Has(cases: seq<Case>, selector: string) {
    exists i :: 0 <= i < |cases| && cases[i].selector == selector
  }

  // ----- reading -----

  predicate IsWordChar(c: char) {
    !IsSpace(c) && c !in {',', '{', '}'}
  }

  function WordLength(s: string): (n: nat)
    ensures n <= |s|
    ensures forall i :: 0 <= i < n ==> IsWordChar(s[i])
    ensures n == |s| || !IsWordChar(s[n])
  {
    if s == "" || !IsWordChar(s[0]) then 0 else 1 + WordLength(s[1..])
  }

  function Word(s: string): (r: Result<(string, string), MessageError>)
    ensures r.Ok? ==> |r.value.1| < |s| && IsWord(r.value.0)
  {
    var t := SkipSpace(s);
    var n := WordLength(t);
    if n == 0 then Err(MessageError(ExpectedName, |t|)) else Ok((t[..n], t[n..]))
  }

  predicate IsWord(name: string) {
    name != "" && forall i :: 0 <= i < |name| ==> IsWordChar(name[i])
  }

  function Expect(s: string, c: char): (r: Result<string, MessageError>)
    ensures r.Ok? ==> |r.value| < |s|
  {
    var t := SkipSpace(s);
    if t != "" && t[0] == c then Ok(t[1..]) else Err(MessageError(Expected(c), |t|))
  }

  /** A character an apostrophe quotes: a brace, or `#` directly inside a plural. */
  predicate IsSyntax(c: char, inPlural: bool) {
    c == '{' || c == '}' || (inPlural && c == '#')
  }

  function Flush(text: string): seq<Node> {
    if text == "" then [] else [Text(text)]
  }

  type NodesRead = Result<(seq<Node>, string), MessageError>

  function Then(out: seq<Node>, r: NodesRead): NodesRead {
    if r.Ok? then Ok((out + r.value.0, r.value.1)) else r
  }

  /** An apostrophe: a doubled one, the start of a quoted run, or itself. */
  function ReadQuote(s: string, inPlural: bool, text: string): (r: Result<(string, string), MessageError>)
    requires s != "" && s[0] == '\''
    ensures r.Ok? ==> |r.value.1| < |s|
  {
    if |s| > 1 && s[1] == '\'' then Ok((text + "'", s[2..]))
    else if |s| > 1 && IsSyntax(s[1], inPlural) then
      match IndexOf(s, '\'', 1) {
        case None => Err(MessageError(UnclosedQuote, |s|))
        case Some(close) => Ok((text + s[1..close], s[close + 1..]))
      }
    else Ok((text + s[..1], s[1..]))
  }

  /** The nodes up to the closing brace or the end, with `text` already collected. */
  function ParseNodes(s: string, inPlural: bool, nested: bool, text: string): (r: NodesRead)
    ensures r.Ok? ==> |r.value.1| <= |s|
    decreases |s|
  {
    if s == "" then Ok((Flush(text), ""))
    else if s[0] == '\'' then
      var (more, rest) :- ReadQuote(s, inPlural, text);
      ParseNodes(rest, inPlural, nested, more)
    else if s[0] == '}' then
      if nested then Ok((Flush(text), s)) else Err(MessageError(UnexpectedBrace, |s|))
    else if s[0] == '#' && inPlural then
      Then(Flush(text) + [Pound], ParseNodes(s[1..], inPlural, nested, ""))
    else if s[0] == '{' then
      var (node, rest) :- ParseArgument(s[1..]);
      Then(Flush(text) + [node], ParseNodes(rest, inPlural, nested, ""))
    else ParseNodes(s[1..], inPlural, nested, text + s[..1])
  }

  /** What follows an opening brace, through its closing brace. */
  function ParseArgument(s: string): (r: Result<(Node, string), MessageError>)
    ensures r.Ok? ==> |r.value.1| < |s|
    decreases |s|
  {
    var (name, afterName) :- Word(s);
    var s1 := SkipSpace(afterName);
    if s1 != "" && s1[0] == '}' then Ok((Arg(name, false), s1[1..]))
    else
      var s2 :- Expect(s1, ',');
      var (kind, afterKind) :- Word(s2);
      ParseTyped(name, kind, SkipSpace(afterKind))
  }

  /** What follows the type of an argument, through its closing brace. */
  function ParseTyped(name: string, kind: string, s: string): (r: Result<(Node, string), MessageError>)
    ensures r.Ok? ==> |r.value.1| < |s|
    decreases |s|
  {
    if kind == "number" then
      var s1 :- Expect(s, '}');
      Ok((Arg(name, true), s1))
    else if kind != "plural" && kind != "select" then
      Err(MessageError(UnsupportedType(kind), |s|))
    else
      var s1 :- Expect(s, ',');
      var (cases, s2) :- ParseCases(SkipSpace(s1), kind == "plural", []);
      if !Has(cases, "other") then Err(MessageError(NeedsOther(name), |s2|))
      else Ok((Branch(if kind == "plural" then Plural else Select, name, cases), s2))
  }

  /** The remaining cases of an argument, with `cases` already collected. */
  function ParseCases(s: string, inPlural: bool, cases: seq<Case>)
    : (r: Result<(seq<Case>, string), MessageError>)
    ensures r.Ok? ==> |r.value.1| < |s|
    decreases |s|
  {
    if s != "" && s[0] == '}' then Ok((cases, s[1..]))
    else
      var (selector, s1) :- Word(s);
      var s2 :- Expect(s1, '{');
      var (body, s3) :- ParseNodes(s2, inPlural, true, "");
      var s4 :- Expect(s3, '}');
      var s5 := SkipSpace(s4);
      if s5 == "" then Err(MessageError(UnclosedArgument, 0))
      else ParseCases(s5, inPlural, Put(cases, Case(selector, body)))
  }

  function Parse(source: string): Result<seq<Node>, MessageError> {
    var (nodes, rest) :- ParseNodes(source, false, false, "");
    if rest != "" then Err(MessageError(UnexpectedBrace, |rest|)) else Ok(nodes)
  }

  // ----- writing -----

  function DoubleQuotes(text: string): string {
    ReplaceChar(text, '\'', "''")
  }

  /** Length of the run of syntax characters at the front. */
  function RunLength(text: string, inPlural: bool): (n: nat)
    ensures n <= |text|
    ensures forall i :: 0 <= i < n ==> IsSyntax(text[i], inPlural)
    ensures n == |text| || !IsSyntax(text[n], inPlural)
  {
    if text == "" || !IsSyntax(text[0], inPlural) then 0 else 1 + RunLength(text[1..], inPlural)
  }

  /** `text.replace(/[{}#]+/g, run => "'" + run + "'")`, without `#` outside a plural. */
  function QuoteRuns(text: string, inPlural: bool): string {
    if text == "" then ""
    else
      var n := RunLength(text, inPlural);
      if n == 0 then text[..1] + QuoteRuns(text[1..], inPlural)
      else "'" + text[..n] + "'" + QuoteRuns(text[n..], inPlural)
  }

  function Escape(text: string, inPlural: bool): string {
    QuoteRuns(DoubleQuotes(text), inPlural)
  }

  function KindName(kind: Kind): string {
    match kind
    case Plural => "plural"
    case Select => "select"
  }

  function Write(nodes: seq<Node>, inPlural: bool, change: string -> string): string
    decreases nodes
  {
    if nodes == [] then ""
    else WriteNode(nodes[0], inPlural, change) + Write(nodes[1..], inPlural, change)
  }

  function WriteNode(node: Node, inPlural: bool, change: string -> string): string
    decreases node
  {
    match node
    case Text(text) => Escape(change(text), inPlural)
    case Pound => "#"
    case Arg(name, number) => if number then "{" + name + ", number}" else "{" + name + "}"
    case Branch(kind, name, cases) =>
      "{" + name + ", " + KindName(kind) + ", " + WriteCases(cases, kind.Plural?, change) + "}"
  }

  function WriteCases(cases: seq<Case>, inPlural: bool, change: string -> string): string
    decreases cases
  {
    if cases == [] then ""
    else if |cases| == 1 then WriteCase(cases[0], inPlural, change)
    else WriteCase(cases[0], inPlural, change) + " " + WriteCases(cases[1..], inPlural, change)
  }

  function WriteCase(c: Case, inPlural: bool, change: string -> string): string
    decreases c
  {
    c.selector + " {" + Write(c.body, inPlural, change) + "}"
  }

  function MapText(source: string, change: string -> string): Result<string, MessageError> {
    var nodes :- Parse(source);
    Ok(Write(nodes, false, change))
  }

  // ----- argument names and rendering -----

  function Names(nodes: seq<Node>): set<string>
    decreases nodes
  {
    if nodes == [] then {} else NodeNames(nodes[0]) + Names(nodes[1..])
  }

  function NodeNames(node: Node): set<string>
    decreases node
  {
    match node
    case Text(_) => {}
    case Pound => {}
    case Arg(name, _) => {name}
    case Branch(_, name, cases) => {name} + CaseNames(cases)
  }

  function CaseNames(cases: seq<Case>): set<string>
    decreases cases
  {
    if cases == [] then {} else Names(cases[0].body) + CaseNames(cases[1..])
  }

  function ArgumentNames(source: string): Result<set<string>, MessageError> {
    var nodes :- Parse(source);
    Ok(Names(nodes))
  }

  /** An argument value; `N` stands for JavaScript numbers. */
  datatype Value<N> = Str(text: string) | Num(number: N)

  /** What rendering takes from JavaScript and `Intl`; `None` stands for `undefined`. */
  datatype Locale<!N> = Locale(
    toNumber: Option<Value<N>> -> N,
    toText: Option<Value<N>> -> string,
    format: N -> string,
    category: N -> string,
    show: N -> string)

  function Lookup<N>(args: map<string, Value<N>>, name: string): Option<Value<N>> {
    if name in args then Some(args[name]) else None
  }

  /** `cases[wanted] ?? cases.other`; `None` cannot happen for a parsed message. */
  function Choose(cases: seq<Case>, wanted: string): (i: Option<nat>)
    ensures i.Some? ==> i.value < |cases|
  {
    var found := Find(cases, wanted);
    if found.Some? then found else Find(cases, "other")
  }

  function Render<N>(nodes: seq<Node>, args: map<string, Value<N>>, locale: Locale<N>, count: Option<N>): string
    decreases nodes
  {
    if nodes == [] then ""
    else RenderNode(nodes[0], args, locale, count) + Render(nodes[1..], args, locale, count)
  }

  function RenderNode<N>(node: Node, args: map<string, Value<N>>, locale: Locale<N>, count: Option<N>): string
    decreases node
  {
    match node
    case Text(text) => text
    case Pound => if count.None? then "#" else locale.format(count.value)
    case Arg(name, number) =>
      var value := Lookup(args, name);
      if value.None? then "{" + name + "}"
      else if number || value.value.Num? then locale.format(locale.toNumber(value))
      else locale.toText(value)
    case Branch(Select, name, cases) =>
      var i := Choose(cases, locale.toText(Lookup(args, name)));
      if i.None? then "" else Render(cases[i.value].body, args, locale, None)
    case Branch(Plural, name, cases) =>
      var n := locale.toNumber(Lookup(args, name));
      var exact := Find(cases, "=" + locale.show(n));
      var i := if exact.Some? then exact else Choose(cases, locale.category(n));
      if i.None? then "" else Render(cases[i.value].body, args, locale, Some(n))
  }

  function Format<N>(source: string, args: map<string, Value<N>>, locale: Locale<N>): Result<string, MessageError> {
    var nodes :- Parse(source);
    Ok(Render(nodes, args, locale, None))
  }
}
