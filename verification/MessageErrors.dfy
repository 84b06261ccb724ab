/** Where and why a message is refused. */
module MessageErrors {
  import opened Outcome
  import opened JsText
  import opened Message

  predicate Suffix(s: string, rest: string) {
    |rest| <= |s| && rest == s[|s| - |rest|..]
  }

  /** What stands at the place of the error, from there to the end. */
  predicate Shows(rest: string, why: Why) {
    match why
    case ExpectedName => rest == "" || rest[0] in {',', '{', '}'}
    case Expected(wanted) => rest == "" || (rest[0] != wanted && !IsSpace(rest[0]))
    case UnclosedQuote => |rest| > 1 && rest[0] == '\'' && rest[1] in {'{', '}', '#'} && '\'' !in rest[1..]
    case UnexpectedBrace => rest != "" && rest[0] == '}'
    case UnsupportedType(found) => found !in {"number", "plural", "select"} && (rest == "" || !IsSpace(rest[0]))
    case UnclosedArgument => rest == ""
    case NeedsOther(name) => name != ""
  }

  /** The error is at a place of the text that shows it. */
  predicate Located(s: string, e: MessageError) {
    e.left <= |s| && Shows(s[|s| - e.left..], e.why)
  }

  lemma SuffixLocated(s: string, rest: string, e: MessageError)
    requires Suffix(s, rest) && Located(rest, e)
    ensures Located(s, e)
  {
    assert rest[|rest| - e.left..] == s[|s| - e.left..];
  }

  lemma SuffixSuffix(s: string, t: string, rest: string)
    requires Suffix(s, t) && Suffix(t, rest)
    ensures Suffix(s, rest)
  {
  }

  lemma TailSuffix(s: string, n: nat)
    requires n <= |s|
    ensures Suffix(s, s[n..])
  {
  }

  lemma {:induction false} SpaceSuffix(s: string)
    ensures Suffix(s, SkipSpace(s))
  {
    if s != "" && IsSpace(s[0]) {
      SpaceSuffix(s[1..]);
    }
  }

  lemma WordPlace(s: string)
    ensures Word(s).Ok? ==> Suffix(s, Word(s).value.1)
    ensures Word(s).Err? ==> Located(s, Word(s).error)
  {
    SpaceSuffix(s);
    var t := SkipSpace(s);
    if Word(s).Ok? {
      TailSuffix(t, WordLength(t));
      SuffixSuffix(s, t, Word(s).value.1);
    }
  }

  lemma ExpectPlace(s: string, c: char)
    ensures Expect(s, c).Ok? ==> Suffix(s, Expect(s, c).value)
    ensures Expect(s, c).Err? ==> Located(s, Expect(s, c).error)
  {
    SpaceSuffix(s);
    var t := SkipSpace(s);
    if Expect(s, c).Ok? {
      TailSuffix(t, 1);
      SuffixSuffix(s, t, t[1..]);
    }
  }

  lemma QuotePlace(s: string, inPlural: bool, text: string)
    requires s != "" && s[0] == '\''
    ensures ReadQuote(s, inPlural, text).Ok? ==> Suffix(s, ReadQuote(s, inPlural, text).value.1)
    ensures ReadQuote(s, inPlural, text).Err? ==> Located(s, ReadQuote(s, inPlural, text).error)
  {
    if |s| > 1 && s[1] != '\'' && IsSyntax(s[1], inPlural) && IndexOf(s, '\'', 1).None? {
      assert s[|s| - |s|..] == s;
      assert forall i :: 0 <= i < |s[1..]| ==> s[1..][i] == s[i + 1];
    }
  }

  /** What a reader of text leaves behind, or where it fails. */
  predicate Placed<T>(s: string, r: Result<(T, string), MessageError>) {
    (r.Ok? ==> Suffix(s, r.value.1)) && (r.Err? ==> Located(s, r.error))
  }

  lemma PlacedLater<T>(s: string, t: string, r: Result<(T, string), MessageError>)
    requires Suffix(s, t) && Placed(t, r)
    ensures Placed(s, r)
  {
    if r.Err? {
      SuffixLocated(s, t, r.error);
    }
  }

  lemma {:induction false} NodesPlace(s: string, inPlural: bool, nested: bool, text: string)
    ensures Placed(s, ParseNodes(s, inPlural, nested, text))
    decreases |s|, 0
  {
    var r := ParseNodes(s, inPlural, nested, text);
    if s == "" || s[0] == '}' {
      assert s[|s| - |s|..] == s;
    } else if s[0] == '\'' {
      QuotePlace(s, inPlural, text);
      var read := ReadQuote(s, inPlural, text);
      if read.Ok? {
        NodesPlace(read.value.1, inPlural, nested, read.value.0);
        PlacedLater(s, read.value.1, r);
      }
    } else if s[0] == '#' && inPlural {
      NodesPlace(s[1..], inPlural, nested, "");
      ThenPlace(s, s[1..], Flush(text) + [Pound], ParseNodes(s[1..], inPlural, nested, ""));
    } else if s[0] == '{' {
      ArgumentPlace(s[1..]);
      var read := ParseArgument(s[1..]);
      if read.Ok? {
        var rest := read.value.1;
        SuffixSuffix(s, s[1..], rest);
        NodesPlace(rest, inPlural, nested, "");
        ThenPlace(s, rest, Flush(text) + [read.value.0], ParseNodes(rest, inPlural, nested, ""));
      } else {
        SuffixLocated(s, s[1..], read.error);
      }
    } else {
      NodesPlace(s[1..], inPlural, nested, text + s[..1]);
      PlacedLater(s, s[1..], r);
    }
  }

  lemma ThenPlace(s: string, rest: string, out: seq<Node>, r: NodesRead)
    requires Suffix(s, rest) && Placed(rest, r)
    ensures Placed(s, Then(out, r))
  {
    PlacedLater(s, rest, Then(out, r));
  }

  lemma {:induction false} ArgumentPlace(s: string)
    ensures Placed(s, ParseArgument(s))
    decreases |s|, 0
  {
    WordPlace(s);
    if Word(s).Ok? {
      var afterName := Word(s).value.1;
      SpaceSuffix(afterName);
      var s1 := SkipSpace(afterName);
      SuffixSuffix(s, afterName, s1);
      if s1 != "" && s1[0] == '}' {
        SuffixSuffix(s, s1, s1[1..]);
      } else {
        CommaPlace(Word(s).value.0, s1);
        PlacedLater(s, s1, ParseArgument(s));
      }
    }
  }

  /** What follows a name that is not closed at once. */
  function AfterName(name: string, s: string): Result<(Node, string), MessageError> {
    var s2 :- Expect(s, ',');
    var (kind, afterKind) :- Word(s2);
    ParseTyped(name, kind, SkipSpace(afterKind))
  }

  lemma {:induction false} CommaPlace(name: string, s: string)
    requires name != ""
    ensures Placed(s, AfterName(name, s))
    decreases |s|, 1
  {
    ExpectPlace(s, ',');
    if Expect(s, ',').Ok? {
      var s2 := Expect(s, ',').value;
      WordPlace(s2);
      if Word(s2).Ok? {
        var kind, afterKind := Word(s2).value.0, Word(s2).value.1;
        SpaceSuffix(afterKind);
        var s3 := SkipSpace(afterKind);
        SuffixSuffix(s2, afterKind, s3);
        SuffixSuffix(s, s2, s3);
        TypedPlace(name, kind, s3);
        PlacedLater(s, s3, ParseTyped(name, kind, s3));
      } else {
        SuffixLocated(s, s2, Word(s2).error);
      }
    }
  }

  lemma {:induction false} TypedPlace(name: string, kind: string, s: string)
    requires name != "" && (s == "" || !IsSpace(s[0]))
    ensures Placed(s, ParseTyped(name, kind, s))
    decreases |s|, 0
  {
    assert s[|s| - |s|..] == s;
    ExpectPlace(s, '}');
    ExpectPlace(s, ',');
    if kind != "number" && (kind == "plural" || kind == "select") && Expect(s, ',').Ok? {
      var s1 := Expect(s, ',').value;
      SpaceSuffix(s1);
      var t := SkipSpace(s1);
      SuffixSuffix(s, s1, t);
      CasesPlace(t, kind == "plural", []);
      var read := ParseCases(t, kind == "plural", []);
      if read.Err? {
        SuffixLocated(s, t, read.error);
      } else {
        SuffixSuffix(s, t, read.value.1);
      }
    }
  }

  lemma {:induction false} CasesPlace(s: string, inPlural: bool, cases: seq<Case>)
    ensures Placed(s, ParseCases(s, inPlural, cases))
    decreases |s|, 1
  {
    if s != "" && s[0] == '}' {
      TailSuffix(s, 1);
    } else {
      WordPlace(s);
      if Word(s).Ok? {
        var s1 := Word(s).value.1;
        CasePlace(s1, inPlural, cases, Word(s).value.0);
        PlacedLater(s, s1, ParseCases(s, inPlural, cases));
      }
    }
  }

  /** What follows a selector: its case, and the cases behind it. */
  function AfterSelector(s: string, inPlural: bool, cases: seq<Case>, selector: string): Result<(seq<Case>, string), MessageError> {
    var s2 :- Expect(s, '{');
    var (body, s3) :- ParseNodes(s2, inPlural, true, "");
    var s4 :- Expect(s3, '}');
    var s5 := SkipSpace(s4);
    if s5 == "" then Err(MessageError(UnclosedArgument, 0))
    else ParseCases(s5, inPlural, Put(cases, Case(selector, body)))
  }

  lemma {:induction false} CasePlace(s: string, inPlural: bool, cases: seq<Case>, selector: string)
    ensures Placed(s, AfterSelector(s, inPlural, cases, selector))
    decreases |s|, 2
  {
    ExpectPlace(s, '{');
    if Expect(s, '{').Ok? {
      var s2 := Expect(s, '{').value;
      NodesPlace(s2, inPlural, true, "");
      var read := ParseNodes(s2, inPlural, true, "");
      if read.Ok? {
        BodyPlace(s2, read.value.1, inPlural, cases, Case(selector, read.value.0));
      }
      PlacedLater(s, s2, AfterSelector(s, inPlural, cases, selector));
    }
  }

  /** What follows the body of a case. */
  function AfterBody(s3: string, inPlural: bool, cases: seq<Case>, c: Case): Result<(seq<Case>, string), MessageError> {
    var s4 :- Expect(s3, '}');
    var s5 := SkipSpace(s4);
    if s5 == "" then Err(MessageError(UnclosedArgument, 0)) else ParseCases(s5, inPlural, Put(cases, c))
  }

  lemma {:induction false} BodyPlace(s: string, s3: string, inPlural: bool, cases: seq<Case>, c: Case)
    requires Suffix(s, s3)
    ensures Placed(s, AfterBody(s3, inPlural, cases, c))
    decreases |s3|, 2
  {
    ExpectPlace(s3, '}');
    var read := Expect(s3, '}');
    if read.Err? {
      SuffixLocated(s, s3, read.error);
    } else {
      var s4 := read.value;
      SpaceSuffix(s4);
      var s5 := SkipSpace(s4);
      SuffixSuffix(s, s3, s4);
      SuffixSuffix(s, s4, s5);
      if s5 == "" {
        assert s[|s|..] == "";
      } else {
        CasesPlace(s5, inPlural, Put(cases, c));
        PlacedLater(s, s5, ParseCases(s5, inPlural, Put(cases, c)));
      }
    }
  }

  /** A message is refused at a place that shows why. */
  lemma ErrorIsLocated(source: string)
    requires Parse(source).Err?
    ensures Located(source, Parse(source).error)
  {
    NodesPlace(source, false, false, "");
    NodesStop(source, false, "");
  }

  /** At the top level nothing is left over. */
  lemma {:induction false} NodesStop(s: string, inPlural: bool, text: string)
    ensures var r := ParseNodes(s, inPlural, false, text); r.Ok? ==> r.value.1 == ""
    decreases |s|
  {
    if s != "" && s[0] != '}' {
      if s[0] == '\'' {
        var read := ReadQuote(s, inPlural, text);
        if read.Ok? {
          NodesStop(read.value.1, inPlural, read.value.0);
        }
      } else if s[0] == '#' && inPlural {
        NodesStop(s[1..], inPlural, "");
      } else if s[0] == '{' {
        var read := ParseArgument(s[1..]);
        if read.Ok? {
          NodesStop(read.value.1, inPlural, "");
        }
      } else {
        NodesStop(s[1..], inPlural, text + s[..1]);
      }
    }
  }
}
