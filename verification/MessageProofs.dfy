/** Printing inverts parsing, on every message and in both quoting contexts. */
module MessageProofs {
  import opened Outcome
  import opened JsText
  import opened Message
  import opened Sequences

  // ----- the node lists a parse can produce -----

  /** Selectors are distinct and stand in the order a JavaScript object lists them. */
  ghost predicate Enumerable(cases: seq<Case>) {
    forall i, j :: 0 <= i < j < |cases| ==>
      cases[i].selector != cases[j].selector && !Precedes(cases[j].selector, cases[i].selector)
  }

  ghost predicate Normal(nodes: seq<Node>, inPlural: bool)
    decreases nodes
  {
    nodes == [] ||
    (NormalNode(nodes[0], inPlural)
     && (nodes[0].Text? && |nodes| > 1 ==> !nodes[1].Text?)
     && Normal(nodes[1..], inPlural))
  }

  ghost predicate NormalNode(node: Node, inPlural: bool)
    decreases node
  {
    match node
    case Text(text) => text != ""
    case Pound => inPlural
    case Arg(name, _) => IsWord(name)
    case Branch(kind, name, cases) =>
      IsWord(name) && Enumerable(cases) && Has(cases, "other") && NormalCases(cases, kind.Plural?)
  }

  ghost predicate NormalCases(cases: seq<Case>, inPlural: bool)
    decreases cases
  {
    cases == [] ||
    (IsWord(cases[0].selector) && Normal(cases[0].body, inPlural) && NormalCases(cases[1..], inPlural))
  }

  lemma {:induction false} PutEnumerable(cases: seq<Case>, c: Case)
    requires Enumerable(cases)
    ensures Enumerable(Put(cases, c))
    ensures forall d :: d in Put(cases, c) ==> d == c || d in cases
  {
    if cases != [] && cases[0].selector != c.selector {
      if Precedes(c.selector, cases[0].selector) {
        forall j | 0 <= j < |cases|
          ensures cases[j].selector != c.selector && !Precedes(cases[j].selector, c.selector)
        {
          assert j > 0 ==> !Precedes(cases[j].selector, cases[0].selector);
        }
      } else {
        PutEnumerable(cases[1..], c);
        var rest := Put(cases[1..], c);
        forall j | 0 <= j < |rest|
          ensures cases[0].selector != rest[j].selector && !Precedes(rest[j].selector, cases[0].selector)
        {
          assert rest[j] in rest;
        }
      }
    }
  }

  lemma {:induction false} PutNormal(cases: seq<Case>, c: Case, inPlural: bool)
    requires NormalCases(cases, inPlural) && IsWord(c.selector) && Normal(c.body, inPlural)
    ensures NormalCases(Put(cases, c), inPlural)
  {
    if cases != [] && cases[0].selector != c.selector && !Precedes(c.selector, cases[0].selector) {
      PutNormal(cases[1..], c, inPlural);
    }
  }

  /** Adding the entries of an object in the order it lists them rebuilds that object. */
  lemma {:induction false} PutAppends(cases: seq<Case>, c: Case)
    requires Enumerable(cases + [c])
    ensures Put(cases, c) == cases + [c]
  {
    if cases != [] {
      var all := cases + [c];
      assert all[0] == cases[0] && all[|cases|] == c;
      assert cases[1..] + [c] == all[1..];
      PutAppends(cases[1..], c);
    }
  }

  lemma FlushNormal(text: string, inPlural: bool)
    ensures Normal(Flush(text), inPlural)
  {
    if text != "" {
      var tail: seq<Node> := Flush(text)[1..];
      assert tail == [] && Normal(tail, inPlural);
    }
  }

  lemma {:induction false} ThenNormal(out: seq<Node>, r: NodesRead, inPlural: bool, text: string, node: Node)
    requires out == Flush(text) + [node] && !node.Text? && NormalNode(node, inPlural)
    requires r.Ok? ==> Normal(r.value.0, inPlural)
    ensures Then(out, r).Ok? ==> Normal(Then(out, r).value.0, inPlural)
  {
    if r.Ok? {
      var tail := [node] + r.value.0;
      assert tail[1..] == r.value.0;
      assert Normal(tail, inPlural);
      assert out + r.value.0 == Flush(text) + tail;
      assert text != "" ==> (Flush(text) + tail)[1..] == tail;
    }
  }

  /** Every node list the parser returns is normal for its context. */
  lemma {:induction false} ParseNodesNormal(s: string, inPlural: bool, nested: bool, text: string)
    ensures var r := ParseNodes(s, inPlural, nested, text);
            r.Ok? ==> Normal(r.value.0, inPlural)
    decreases |s|
  {
    FlushNormal(text, inPlural);
    if s == "" {
    } else if s[0] == '\'' {
      var quote := ReadQuote(s, inPlural, text);
      if quote.Ok? {
        ParseNodesNormal(quote.value.1, inPlural, nested, quote.value.0);
      }
    } else if s[0] == '}' {
    } else if s[0] == '#' && inPlural {
      ParseNodesNormal(s[1..], inPlural, nested, "");
      ThenNormal(Flush(text) + [Pound], ParseNodes(s[1..], inPlural, nested, ""), inPlural, text, Pound);
    } else if s[0] == '{' {
      ParseArgumentNormal(s[1..], inPlural);
      var a := ParseArgument(s[1..]);
      if a.Ok? {
        var (node, rest) := a.value;
        ParseNodesNormal(rest, inPlural, nested, "");
        ThenNormal(Flush(text) + [node], ParseNodes(rest, inPlural, nested, ""), inPlural, text, node);
      }
    } else {
      ParseNodesNormal(s[1..], inPlural, nested, text + s[..1]);
    }
  }

  lemma {:induction false} ParseArgumentNormal(s: string, inPlural: bool)
    ensures var r := ParseArgument(s);
            r.Ok? ==> !r.value.0.Text? && NormalNode(r.value.0, inPlural)
    decreases |s|
  {
    var r := ParseArgument(s);
    if r.Ok? {
      var s2 := Expect(SkipSpace(Word(s).value.1), ',');
      if s2.Ok? {
        var w := Word(s2.value);
        if w.Ok? {
          ParseTypedNormal(Word(s).value.0, w.value.0, SkipSpace(w.value.1), inPlural);
        }
      }
    }
  }

  lemma {:induction false} ParseTypedNormal(name: string, kind: string, s: string, inPlural: bool)
    requires IsWord(name)
    ensures var r := ParseTyped(name, kind, s);
            r.Ok? ==> !r.value.0.Text? && NormalNode(r.value.0, inPlural)
    decreases |s|
  {
    var r := ParseTyped(name, kind, s);
    if r.Ok? && kind != "number" {
      ParseCasesNormal(SkipSpace(Expect(s, ',').value), kind == "plural", []);
    }
  }

  lemma {:induction false} ParseCasesNormal(s: string, inPlural: bool, cases: seq<Case>)
    requires Enumerable(cases) && NormalCases(cases, inPlural)
    ensures var r := ParseCases(s, inPlural, cases);
            r.Ok? ==> Enumerable(r.value.0) && NormalCases(r.value.0, inPlural)
    decreases |s|
  {
    var r := ParseCases(s, inPlural, cases);
    if r.Ok? && !(s != "" && s[0] == '}') {
      var (selector, s1) := Word(s).value;
      var s2 := Expect(s1, '{').value;
      var (body, s3) := ParseNodes(s2, inPlural, true, "").value;
      ParseNodesNormal(s2, inPlural, true, "");
      var c := Case(selector, body);
      PutEnumerable(cases, c);
      PutNormal(cases, c, inPlural);
      ParseCasesNormal(SkipSpace(Expect(s3, '}').value), inPlural, Put(cases, c));
    }
  }

  // ----- the literal text -----

  lemma {:induction false} DoubleQuotesSplits(text: string, n: nat)
    requires n <= |text| && forall i :: 0 <= i < n ==> text[i] != '\''
    ensures DoubleQuotes(text) == text[..n] + DoubleQuotes(text[n..])
  {
    if n == 0 {
      assert text[0..] == text && text[..0] == "";
    } else {
      DoubleQuotesSplits(text[1..], n - 1);
      assert text[1..][n - 1..] == text[n..];
      assert text[..n] == text[..1] + text[1..][..n - 1];
    }
  }

  lemma {:induction false} RunLengthIs(s: string, inPlural: bool, n: nat)
    requires n <= |s| && forall i :: 0 <= i < n ==> IsSyntax(s[i], inPlural)
    requires n == |s| || !IsSyntax(s[n], inPlural)
    ensures RunLength(s, inPlural) == n
  {
  }

  lemma QuoteRunsPlain(first: char, after: string, inPlural: bool)
    requires !IsSyntax(first, inPlural)
    ensures QuoteRuns([first] + after, inPlural) == [first] + QuoteRuns(after, inPlural)
  {
    var s := [first] + after;
    assert s[..1] == [first] && s[1..] == after;
  }

  lemma EscapeQuote(text: string, inPlural: bool)
    requires text != "" && text[0] == '\''
    ensures Escape(text, inPlural) == "''" + Escape(text[1..], inPlural)
  {
    var after := DoubleQuotes(text[1..]);
    assert "''" == ['\''] + ['\''];
    Assoc(['\''], ['\''], after);
    Assoc(['\''], ['\''], QuoteRuns(after, inPlural));
    QuoteRunsPlain('\'', after, inPlural);
    QuoteRunsPlain('\'', ['\''] + after, inPlural);
  }

  lemma EscapePlain(text: string, inPlural: bool)
    requires text != "" && text[0] != '\'' && !IsSyntax(text[0], inPlural)
    ensures Escape(text, inPlural) == text[..1] + Escape(text[1..], inPlural)
  {
    assert text[..1] == [text[0]];
    QuoteRunsPlain(text[0], DoubleQuotes(text[1..]), inPlural);
  }

  lemma EscapeRun(text: string, inPlural: bool)
    requires text != "" && IsSyntax(text[0], inPlural)
    ensures var n := RunLength(text, inPlural);
            Escape(text, inPlural) == "'" + text[..n] + "'" + Escape(text[n..], inPlural)
  {
    var n := RunLength(text, inPlural);
    DoubleQuotesSplits(text, n);
    var after := DoubleQuotes(text[n..]);
    var d := text[..n] + after;
    assert n == |text| || after[0] == text[n];
    RunLengthIs(d, inPlural, n);
    assert d[..n] == text[..n] && d[n..] == after;
  }

  lemma ReadDoubledQuote(after: string, inPlural: bool, nested: bool, acc: string)
    ensures ParseNodes("''" + after, inPlural, nested, acc) == ParseNodes(after, inPlural, nested, acc + "'")
  {
    var s := "''" + after;
    assert s[2..] == after;
  }

  lemma ReadPlain(c: char, after: string, inPlural: bool, nested: bool, acc: string)
    requires c != '\'' && !IsSyntax(c, inPlural)
    ensures ParseNodes([c] + after, inPlural, nested, acc) == ParseNodes(after, inPlural, nested, acc + [c])
  {
    var s := [c] + after;
    assert s[..1] == [c] && s[1..] == after;
  }

  lemma ReadQuotedRun(run: string, after: string, inPlural: bool, nested: bool, acc: string)
    requires run != "" && forall i :: 0 <= i < |run| ==> IsSyntax(run[i], inPlural)
    ensures ParseNodes("'" + run + "'" + after, inPlural, nested, acc)
         == ParseNodes(after, inPlural, nested, acc + run)
  {
    var s := "'" + run + "'" + after;
    assert s[1] == run[0];
    forall j | 1 <= j < |run| + 1
      ensures s[j] != '\''
    {
      assert s[j] == run[j - 1];
    }
    IndexIs(s, '\'', 1, |run| + 1);
    Middle("'" + run, "'", after);
    Assoc("'" + run, "'", after);
    Middle("'", run, "'" + after);
  }

  /** One step of reading escaped text: the part of `text` it stands for. */
  function StepLength(text: string, inPlural: bool): (n: nat)
    requires text != ""
    ensures 0 < n <= |text|
  {
    if IsSyntax(text[0], inPlural) then RunLength(text, inPlural) else 1
  }

  /** The printed form of that part. */
  function StepText(text: string, inPlural: bool): string
    requires text != ""
  {
    if text[0] == '\'' then "''"
    else if IsSyntax(text[0], inPlural) then "'" + text[..StepLength(text, inPlural)] + "'"
    else text[..1]
  }

  lemma EscapeStep(text: string, inPlural: bool)
    requires text != ""
    ensures Escape(text, inPlural) == StepText(text, inPlural) + Escape(text[StepLength(text, inPlural)..], inPlural)
  {
    if text[0] == '\'' {
      EscapeQuote(text, inPlural);
    } else if IsSyntax(text[0], inPlural) {
      EscapeRun(text, inPlural);
    } else {
      EscapePlain(text, inPlural);
    }
  }

  lemma ReadStep(text: string, after: string, inPlural: bool, nested: bool, acc: string)
    requires text != ""
    ensures ParseNodes(StepText(text, inPlural) + after, inPlural, nested, acc)
         == ParseNodes(after, inPlural, nested, acc + text[..StepLength(text, inPlural)])
  {
    assert text[..1] == [text[0]];
    if text[0] == '\'' {
      ReadDoubledQuote(after, inPlural, nested, acc);
    } else if IsSyntax(text[0], inPlural) {
      ReadQuotedRun(text[..StepLength(text, inPlural)], after, inPlural, nested, acc);
    } else {
      ReadPlain(text[0], after, inPlural, nested, acc);
    }
  }

  /** Escaped text reads back as the text itself, whatever follows it. */
  lemma {:induction false} ParseEscaped(text: string, inPlural: bool, nested: bool, acc: string, rest: string)
    ensures ParseNodes(Escape(text, inPlural) + rest, inPlural, nested, acc)
         == ParseNodes(rest, inPlural, nested, acc + text)
    decreases |text|
  {
    if text == "" {
      Unit(rest);
      Unit(acc);
    } else {
      var n := StepLength(text, inPlural);
      var step, tail := StepText(text, inPlural), Escape(text[n..], inPlural);
      EscapeStep(text, inPlural);
      Assoc(step, tail, rest);
      ReadStep(text, tail + rest, inPlural, nested, acc);
      ParseEscaped(text[n..], inPlural, nested, acc + text[..n], rest);
      TakeDrop(acc, text, n);
    }
  }

  // ----- whole messages -----

  /** The nodes with `change` applied to each literal; a literal that becomes empty goes. */
  function MapNodes(nodes: seq<Node>, change: string -> string): seq<Node>
    decreases nodes
  {
    if nodes == [] then [] else MapNode(nodes[0], change) + MapNodes(nodes[1..], change)
  }

  function MapNode(node: Node, change: string -> string): (r: seq<Node>)
    ensures !node.Text? ==> |r| == 1 && !r[0].Text?
    decreases node
  {
    match node
    case Text(text) => Flush(change(text))
    case Pound => [Pound]
    case Arg(_, _) => [node]
    case Branch(kind, name, cases) => [Branch(kind, name, MapCases(cases, change))]
  }

  function MapCases(cases: seq<Case>, change: string -> string): (r: seq<Case>)
    ensures |r| == |cases| && forall i :: 0 <= i < |r| ==> r[i].selector == cases[i].selector
    decreases cases
  {
    if cases == [] then []
    else [Case(cases[0].selector, MapNodes(cases[0].body, change))] + MapCases(cases[1..], change)
  }

  lemma {:induction false} WordLengthOf(name: string, rest: string)
    requires forall i :: 0 <= i < |name| ==> IsWordChar(name[i])
    requires rest == "" || !IsWordChar(rest[0])
    ensures WordLength(name + rest) == |name|
  {
    if name == "" {
      assert name + rest == rest;
    } else {
      assert (name + rest)[1..] == name[1..] + rest;
      WordLengthOf(name[1..], rest);
    }
  }

  lemma ReadWord(name: string, rest: string)
    requires IsWord(name) && (rest == "" || !IsWordChar(rest[0]))
    ensures Word(name + rest) == Ok((name, rest))
    ensures Word(" " + name + rest) == Ok((name, rest))
  {
    var s := name + rest;
    assert s[0] == name[0];
    assert SkipSpace(s) == s;
    var spaced := " " + name + rest;
    assert spaced[1..] == s;
    assert SkipSpace(spaced) == s;
    WordLengthOf(name, rest);
    assert s[..|name|] == name && s[|name|..] == rest;
  }

  lemma ReadPound(after: string, nested: bool, acc: string)
    ensures ParseNodes("#" + after, true, nested, acc)
         == Then(Flush(acc) + [Pound], ParseNodes(after, true, nested, ""))
  {
    var s := "#" + after;
    assert s[1..] == after;
  }

  lemma ReadArgument(s: string, node: Node, after: string, inPlural: bool, nested: bool, acc: string)
    requires ParseArgument(s) == Ok((node, after))
    ensures ParseNodes("{" + s, inPlural, nested, acc)
         == Then(Flush(acc) + [node], ParseNodes(after, inPlural, nested, ""))
  {
    var t := "{" + s;
    assert t[1..] == s;
  }

  lemma ReadArg(name: string, after: string)
    requires IsWord(name)
    ensures ParseArgument(name + ("}" + after)) == Ok((Arg(name, false), after))
  {
    var close := "}" + after;
    ReadWord(name, close);
    assert close[1..] == after;
  }

  lemma ReadTypedArgument(s: string, name: string, s1: string, kind: string, s3: string)
    requires Word(s) == Ok((name, s1)) && s1 != "" && s1[0] == ','
    requires Word(s1[1..]) == Ok((kind, s3))
    ensures ParseArgument(s) == ParseTyped(name, kind, SkipSpace(s3))
  {
    assert SkipSpace(s1) == s1 && Expect(s1, ',') == Ok(s1[1..]);
  }

  lemma ReadNumberType(name: string, after: string)
    ensures ParseTyped(name, "number", "}" + after) == Ok((Arg(name, true), after))
  {
    var close := "}" + after;
    assert close[1..] == after;
  }

  /** After the name: a comma, a kind, and what closes or follows it. */
  lemma ReadKind(name: string, kind: string, close: string)
    requires IsWord(name) && IsWord(kind) && close != "" && !IsWordChar(close[0]) && !IsSpace(close[0])
    ensures ParseArgument(name + (", " + kind + close)) == ParseTyped(name, kind, close)
  {
    var s1 := ", " + kind + close;
    ReadWord(name, s1);
    ReadComma(kind, close);
    ReadTypedArgument(name + s1, name, s1, kind, close);
  }

  lemma ReadNumberArg(name: string, after: string)
    requires IsWord(name)
    ensures ParseArgument(name + (", number}" + after)) == Ok((Arg(name, true), after))
  {
    NumberText(after);
    ReadKind(name, "number", "}" + after);
    ReadNumberType(name, after);
  }

  lemma NumberText(after: string)
    ensures ", number}" + after == ", " + "number" + ("}" + after)
  {
  }

  /** After a comma: the next word. */
  lemma ReadComma(word: string, rest: string)
    requires IsWord(word) && (rest == "" || !IsWordChar(rest[0]))
    ensures var s := ", " + word + rest;
            s != "" && s[0] == ',' && SkipSpace(s) == s && Expect(s, ',') == Ok(s[1..]) && Word(s[1..]) == Ok((word, rest))
  {
    var s := ", " + word + rest;
    assert s[1..] == " " + word + rest;
    ReadWord(word, rest);
  }

  lemma ReadBranchType(kind: Kind, name: string, body: string, cases: seq<Case>, after: string)
    requires Has(cases, "other")
    requires SkipSpace(body) == body && ParseCases(body, kind.Plural?, []) == Ok((cases, after))
    ensures ParseTyped(name, KindName(kind), ", " + body) == Ok((Branch(kind, name, cases), after))
  {
    var s := ", " + body;
    assert s[1..][1..] == body;
    assert SkipSpace(s[1..]) == body;
  }

  lemma KindIsWord(kind: Kind)
    ensures IsWord(KindName(kind))
  {
  }

  lemma ReadBranch(kind: Kind, name: string, s: string)
    requires IsWord(name) && s != "" && s[0] == ','
    ensures ParseArgument(name + (", " + KindName(kind) + s)) == ParseTyped(name, KindName(kind), s)
  {
    var s1 := ", " + KindName(kind) + s;
    KindIsWord(kind);
    ReadWord(name, s1);
    ReadComma(KindName(kind), s);
    ReadTypedArgument(name + s1, name, s1, KindName(kind), s);
  }

  lemma ReadCase(selector: string, inner: string, body: seq<Node>, next: string, inPlural: bool, done: seq<Case>)
    requires IsWord(selector)
    requires ParseNodes(inner, inPlural, true, "") == Ok((body, "}" + next)) && SkipSpace(next) != ""
    ensures ParseCases(selector + (" {" + inner), inPlural, done)
         == ParseCases(SkipSpace(next), inPlural, Put(done, Case(selector, body)))
  {
    var s1 := " {" + inner;
    var open := "{" + inner;
    assert s1[1..] == open && open[1..] == inner;
    assert SkipSpace(s1) == open;
    ReadWord(selector, s1);
    assert (selector + s1)[0] == selector[0] && IsWordChar(selector[0]);
    var close := "}" + next;
    assert close[1..] == next;
    ReadCaseParts(selector + s1, selector, s1, inner, body, close, inPlural, done);
  }

  lemma ReadCaseParts(s: string, selector: string, s1: string, inner: string, body: seq<Node>, close: string,
                      inPlural: bool, done: seq<Case>)
    requires s != "" && s[0] != '}' && Word(s) == Ok((selector, s1)) && Expect(s1, '{') == Ok(inner)
    requires ParseNodes(inner, inPlural, true, "") == Ok((body, close))
    requires close != "" && close[0] == '}' && SkipSpace(close[1..]) != ""
    ensures ParseCases(s, inPlural, done)
         == ParseCases(SkipSpace(close[1..]), inPlural, Put(done, Case(selector, body)))
  {
  }

  /** `Reads` says that from `s` a message body is read as `nodes`, leaving `rest`. */
  predicate Reads(s: string, inPlural: bool, nested: bool, acc: string, nodes: seq<Node>, rest: string) {
    ParseNodes(s, inPlural, nested, acc) == Ok((nodes, rest))
  }

  lemma ReadsEnd(inPlural: bool, nested: bool, acc: string, rest: string)
    requires rest == "" || (nested && rest[0] == '}')
    ensures Reads(rest, inPlural, nested, acc, Flush(acc), rest)
  {
  }

  /** Reading what `Write` printed yields the mapped nodes and leaves the rest. */
  lemma {:induction false} ParseWritten(nodes: seq<Node>, inPlural: bool, nested: bool, change: string -> string,
                                        acc: string, rest: string)
    requires Normal(nodes, inPlural)
    requires acc != "" && nodes != [] ==> !nodes[0].Text?
    requires rest == "" || (nested && rest[0] == '}')
    ensures Reads(Write(nodes, inPlural, change) + rest, inPlural, nested, acc,
                  Flush(acc) + MapNodes(nodes, change), rest)
    decreases nodes
  {
    if nodes == [] {
      Unit(rest);
      Unit(Flush(acc));
      ReadsEnd(inPlural, nested, acc, rest);
    } else {
      var node, tail := nodes[0], nodes[1..];
      var after := Write(tail, inPlural, change) + rest;
      var mapped := MapNodes(tail, change);
      Assoc(WriteNode(node, inPlural, change), Write(tail, inPlural, change), rest);
      match node {
        case Text(text) =>
          ParseEscaped(change(text), inPlural, nested, acc, after);
          Unit(change(text));
          ParseWritten(tail, inPlural, nested, change, change(text), rest);
          Unit(Flush(change(text)) + mapped);
        case Pound =>
          ReadPound(after, nested, acc);
          ParseWritten(tail, inPlural, nested, change, "", rest);
          ThenReads(Flush(acc) + [Pound], mapped, rest);
          Assoc(Flush(acc), [Pound], mapped);
        case _ =>
          WriteNodeInner(node, inPlural, change);
          ParseWrittenArgument(node, inPlural, change, after);
          var inner := Inner(node, change);
          Assoc("{", inner, after);
          ReadArgument(inner + after, MapNode(node, change)[0], after, inPlural, nested, acc);
          ParseWritten(tail, inPlural, nested, change, "", rest);
          ThenReads(Flush(acc) + [MapNode(node, change)[0]], mapped, rest);
          assert MapNode(node, change) == [MapNode(node, change)[0]];
          Assoc(Flush(acc), [MapNode(node, change)[0]], mapped);
      }
    }
  }

  lemma ThenReads(out: seq<Node>, nodes: seq<Node>, rest: string)
    ensures Then(out, Ok((Flush("") + nodes, rest))) == Ok((out + nodes, rest))
  {
    assert Flush("") + nodes == nodes;
  }

  /** A printed argument without its opening brace. */
  function Inner(node: Node, change: string -> string): string
    requires node.Arg? || node.Branch?
  {
    match node
    case Arg(name, number) => if number then name + ", number}" else name + "}"
    case Branch(kind, name, cases) =>
      name + ", " + KindName(kind) + ", " + WriteCases(cases, kind.Plural?, change) + "}"
  }

  lemma WriteNodeInner(node: Node, inPlural: bool, change: string -> string)
    requires node.Arg? || node.Branch?
    ensures WriteNode(node, inPlural, change) == "{" + Inner(node, change)
  {
    match node {
      case Arg(name, number) =>
        Assoc("{", name, if number then ", number}" else "}");
      case Branch(kind, name, cases) =>
        BranchText(name, KindName(kind), WriteCases(cases, kind.Plural?, change), "");
    }
  }

  lemma ParseWrittenArgument(node: Node, inPlural: bool, change: string -> string, after: string)
    requires (node.Arg? || node.Branch?) && NormalNode(node, inPlural)
    ensures ParseArgument(Inner(node, change) + after) == Ok((MapNode(node, change)[0], after))
    decreases node, 0
  {
    match node {
      case Arg(name, number) =>
        if number {
          Assoc(name, ", number}", after);
          ReadNumberArg(name, after);
        } else {
          Assoc(name, "}", after);
          ReadArg(name, after);
        }
      case Branch(kind, name, cases) =>
        var text := WriteCases(cases, kind.Plural?, change);
        var body := text + ("}" + after);
        BranchText(name, KindName(kind), text, after);
        ParseWrittenBody(cases, kind.Plural?, change, after);
        ReadBranchType(kind, name, body, MapCases(cases, change), after);
        ReadBranch(kind, name, ", " + body);
    }
  }

  lemma ParseWrittenBody(cases: seq<Case>, inPlural: bool, change: string -> string, after: string)
    requires NormalCases(cases, inPlural) && Enumerable(cases) && Has(cases, "other")
    ensures var body := WriteCases(cases, inPlural, change) + ("}" + after);
            && SkipSpace(body) == body
            && ParseCases(body, inPlural, []) == Ok((MapCases(cases, change), after))
            && Has(MapCases(cases, change), "other")
    decreases cases, 1
  {
    var mapped := MapCases(cases, change);
    Unit(mapped);
    ParseWrittenCases([], cases, inPlural, change, after);
    WrittenCasesStart(cases, inPlural, change, "}" + after);
    MapCasesHas(cases, change, "other");
  }

  lemma MapCasesHas(cases: seq<Case>, change: string -> string, selector: string)
    requires Has(cases, selector)
    ensures Has(MapCases(cases, change), selector)
  {
    var i :| 0 <= i < |cases| && cases[i].selector == selector;
    assert MapCases(cases, change)[i].selector == selector;
  }

  lemma BranchText(name: string, kind: string, cases: string, after: string)
    ensures "{" + name + ", " + kind + ", " + cases + "}" == "{" + (name + ", " + kind + ", " + cases + "}")
    ensures name + ", " + kind + ", " + cases + "}" + after
         == name + (", " + kind + (", " + (cases + ("}" + after))))
  {
  }

  /** Printed cases start with a selector, so no space is skipped in front of them. */
  lemma WrittenCasesStart(cases: seq<Case>, inPlural: bool, change: string -> string, after: string)
    requires cases != [] && IsWord(cases[0].selector)
    ensures var s := WriteCases(cases, inPlural, change) + after;
            s != "" && SkipSpace(s) == s
  {
    var c := cases[0];
    var text := WriteCase(c, inPlural, change);
    assert text == c.selector + (" {" + Write(c.body, inPlural, change) + "}");
    assert text[0] == c.selector[0] && IsWordChar(text[0]);
    var s := WriteCases(cases, inPlural, change) + after;
    assert s[0] == text[0];
  }

  lemma {:induction false} ParseWrittenCases(done: seq<Case>, cases: seq<Case>, inPlural: bool,
                                             change: string -> string, after: string)
    requires NormalCases(cases, inPlural) && Enumerable(done + MapCases(cases, change))
    ensures ParseCases(WriteCases(cases, inPlural, change) + ("}" + after), inPlural, done)
         == Ok((done + MapCases(cases, change), after))
    decreases cases, 0
  {
    if cases == [] {
      var s := WriteCases(cases, inPlural, change) + ("}" + after);
      assert s[0] == '}' && s[1..] == after;
      Unit(done);
    } else {
      var c, tail := cases[0], cases[1..];
      var mapped := Case(c.selector, MapNodes(c.body, change));
      var later := WriteCases(tail, inPlural, change) + ("}" + after);
      var next := (if tail == [] then "" else " ") + later;
      var inner := Write(c.body, inPlural, change) + ("}" + next);
      FirstCaseText(cases, inPlural, change, after);
      ParseWritten(c.body, inPlural, true, change, "", "}" + next);
      Unit(mapped.body);
      assert SkipSpace(next) == later by {
        if tail != [] {
          WrittenCasesStart(tail, inPlural, change, "}" + after);
          assert next[1..] == later;
        }
      }
      ReadCase(c.selector, inner, mapped.body, next, inPlural, done);
      var all := done + MapCases(cases, change);
      Assoc(done, [mapped], MapCases(tail, change));
      assert done + [mapped] == all[..|done| + 1];
      PutAppends(done, mapped);
      ParseWrittenCases(done + [mapped], tail, inPlural, change, after);
    }
  }

  lemma FirstCaseText(cases: seq<Case>, inPlural: bool, change: string -> string, after: string)
    requires cases != []
    ensures WriteCases(cases, inPlural, change) + ("}" + after)
         == cases[0].selector
            + (" {" + (Write(cases[0].body, inPlural, change)
                       + ("}" + ((if |cases| == 1 then "" else " ")
                                 + (WriteCases(cases[1..], inPlural, change) + ("}" + after))))))
  {
    var body, more := Write(cases[0].body, inPlural, change), WriteCases(cases[1..], inPlural, change);
    CaseText(cases[0].selector, body, more, after);
  }

  lemma CaseText(selector: string, body: string, more: string, after: string)
    ensures selector + " {" + body + "}" + ("}" + after)
         == selector + (" {" + (body + ("}" + ("" + ("" + ("}" + after))))))
    ensures selector + " {" + body + "}" + " " + more + ("}" + after)
         == selector + (" {" + (body + ("}" + (" " + (more + ("}" + after))))))
  {
  }

  /** Rewriting a message's literals and reading it again applies the rewrite to its nodes. */
  lemma MapTextMapsLiterals(source: string, change: string -> string)
    requires Parse(source).Ok?
    ensures MapText(source, change).Ok?
    ensures Parse(MapText(source, change).value) == Ok(MapNodes(Parse(source).value, change))
  {
    ParseNodesNormal(source, false, false, "");
    var nodes := Parse(source).value;
    ParseWritten(nodes, false, false, change, "", "");
    assert Write(nodes, false, change) + "" == Write(nodes, false, change);
    assert Flush("") + MapNodes(nodes, change) == MapNodes(nodes, change);
  }

  function Same(text: string): string { text }

  lemma {:induction false} MapNodesSame(nodes: seq<Node>, inPlural: bool)
    requires Normal(nodes, inPlural)
    ensures MapNodes(nodes, Same) == nodes
    decreases nodes
  {
    if nodes != [] {
      MapNodesSame(nodes[1..], inPlural);
      if nodes[0].Branch? {
        MapCasesSame(nodes[0].cases, nodes[0].kind.Plural?);
      }
      assert nodes == [nodes[0]] + nodes[1..];
    }
  }

  lemma {:induction false} MapCasesSame(cases: seq<Case>, inPlural: bool)
    requires NormalCases(cases, inPlural)
    ensures MapCases(cases, Same) == cases
    decreases cases
  {
    if cases != [] {
      MapNodesSame(cases[0].body, inPlural);
      MapCasesSame(cases[1..], inPlural);
      assert cases == [cases[0]] + cases[1..];
    }
  }

  /** The node lists that survive printing and parsing are exactly those a parse can produce. */
  lemma PrintThenParse(nodes: seq<Node>)
    ensures Parse(Write(nodes, false, Same)) == Ok(nodes) <==> exists source :: Parse(source) == Ok(nodes)
    ensures Parse(Write(nodes, false, Same)) == Ok(nodes) <==> Normal(nodes, false)
  {
    forall source | Parse(source) == Ok(nodes)
      ensures Normal(nodes, false)
    {
      ParseNodesNormal(source, false, false, "");
    }
    if Normal(nodes, false) {
      ParseWritten(nodes, false, false, Same, "", "");
      assert Write(nodes, false, Same) + "" == Write(nodes, false, Same);
      MapNodesSame(nodes, false);
      assert Flush("") + nodes == nodes;
    }
  }

  // ----- meaning -----

  lemma {:induction false} MapKeepsNames(nodes: seq<Node>, change: string -> string)
    ensures Names(MapNodes(nodes, change)) == Names(nodes)
    decreases nodes
  {
    if nodes != [] {
      MapKeepsNames(nodes[1..], change);
      var head, tail := MapNode(nodes[0], change), MapNodes(nodes[1..], change);
      if nodes[0].Branch? {
        MapCasesKeepsNames(nodes[0].cases, change);
      }
      if head != [] {
        assert (head + tail)[0] == head[0] && (head + tail)[1..] == tail;
      } else {
        assert head + tail == tail;
      }
    }
  }

  lemma {:induction false} MapCasesKeepsNames(cases: seq<Case>, change: string -> string)
    ensures CaseNames(MapCases(cases, change)) == CaseNames(cases)
    decreases cases
  {
    if cases != [] {
      MapKeepsNames(cases[0].body, change);
      MapCasesKeepsNames(cases[1..], change);
      assert MapCases(cases, change)[1..] == MapCases(cases[1..], change);
    }
  }

  /** Rewriting literals leaves the arguments a translation must use as they were. */
  lemma MapTextKeepsArguments(source: string, change: string -> string)
    requires Parse(source).Ok?
    ensures ArgumentNames(MapText(source, change).value) == ArgumentNames(source)
  {
    MapTextMapsLiterals(source, change);
    MapKeepsNames(Parse(source).value, change);
  }

  ghost predicate AgreeOn<N(!new)>(a: map<string, Value<N>>, b: map<string, Value<N>>, names: set<string>) {
    forall name :: name in names ==> Lookup(a, name) == Lookup(b, name)
  }

  lemma {:induction false} RenderReads<N(!new)>(nodes: seq<Node>, a: map<string, Value<N>>, b: map<string, Value<N>>,
                                                locale: Locale<N>, count: Option<N>)
    requires AgreeOn(a, b, Names(nodes))
    ensures Render(nodes, a, locale, count) == Render(nodes, b, locale, count)
    decreases nodes
  {
    if nodes != [] {
      RenderNodeReads(nodes[0], a, b, locale, count);
      RenderReads(nodes[1..], a, b, locale, count);
    }
  }

  lemma {:induction false} RenderNodeReads<N(!new)>(node: Node, a: map<string, Value<N>>, b: map<string, Value<N>>,
                                                    locale: Locale<N>, count: Option<N>)
    requires AgreeOn(a, b, NodeNames(node))
    ensures RenderNode(node, a, locale, count) == RenderNode(node, b, locale, count)
    decreases node
  {
    if node.Branch? {
      var cases := node.cases;
      assert node.name in NodeNames(node);
      forall i, n: Option<N> | 0 <= i < |cases|
        ensures Render(cases[i].body, a, locale, n) == Render(cases[i].body, b, locale, n)
      {
        CaseNamesInclude(cases, i);
        RenderReads(cases[i].body, a, b, locale, n);
      }
    }
  }

  lemma {:induction false} CaseNamesInclude(cases: seq<Case>, i: nat)
    requires i < |cases|
    ensures Names(cases[i].body) <= CaseNames(cases)
  {
    if i > 0 {
      CaseNamesInclude(cases[1..], i - 1);
    }
  }

  /** A message reads no argument outside `argumentNames`: the others cannot change its text. */
  lemma FormatReadsArgumentNames<N(!new)>(source: string, a: map<string, Value<N>>, b: map<string, Value<N>>,
                                          locale: Locale<N>)
    requires Parse(source).Ok? && AgreeOn(a, b, ArgumentNames(source).value)
    ensures Format(source, a, locale) == Format(source, b, locale)
  {
    RenderReads(Parse(source).value, a, b, locale, None);
  }

  /** A parsed message never renders a `#` outside a plural: the count given at the top is unused. */
  lemma {:induction false} TopCountUnused<N>(nodes: seq<Node>, args: map<string, Value<N>>, locale: Locale<N>,
                                             count: Option<N>)
    requires Normal(nodes, false)
    ensures Render(nodes, args, locale, count) == Render(nodes, args, locale, None)
    decreases nodes
  {
    if nodes != [] {
      TopCountUnused(nodes[1..], args, locale, count);
    }
  }

  /** Printing a message back unchanged keeps what it says, for every argument and locale. */
  lemma ReprintKeepsMeaning<N>(source: string, args: map<string, Value<N>>, locale: Locale<N>)
    requires Parse(source).Ok?
    ensures Format(MapText(source, Same).value, args, locale) == Format(source, args, locale)
  {
    MapTextMapsLiterals(source, Same);
    ParseNodesNormal(source, false, false, "");
    MapNodesSame(Parse(source).value, false);
  }
}
