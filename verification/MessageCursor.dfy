/** The parser as `message.ts` runs it: one cursor moved over the source by loops. */
module MessageCursor {
  import opened Outcome
  import opened JsText
  import opened Message

  lemma QuoteStep(s: string, inPlural: bool, nested: bool, text: string)
    requires s != "" && s[0] == '\''
    ensures ParseNodes(s, inPlural, nested, text)
         == (var quoted := ReadQuote(s, inPlural, text);
             if quoted.Err? then Err(quoted.error) else ParseNodes(quoted.value.1, inPlural, nested, quoted.value.0))
  {
  }

  lemma PlainStep(s: string, inPlural: bool, nested: bool, text: string)
    requires s != "" && s[0] !in {'\'', '{', '}'} && !(s[0] == '#' && inPlural)
    ensures ParseNodes(s, inPlural, nested, text) == ParseNodes(s[1..], inPlural, nested, text + [s[0]])
  {
    assert s[..1] == [s[0]];
  }

  class Cursor {
    const source: string
    var at: nat

    constructor (source: string)
      ensures Valid() && this.source == source && Rest() == source
    {
      this.source := source;
      at := 0;
    }

    ghost predicate Valid()
      reads this
    {
      at <= |source|
    }

    function Rest(): (s: string)
      requires at <= |source|
      reads this
      ensures |s| == |source| - at
    {
      source[at..]
    }

    lemma RestFrom(n: nat)
      requires Valid() && n <= |Rest()|
      ensures source[at + n..] == Rest()[n..]
    {
    }

    method Space()
      requires Valid()
      modifies this
      ensures Valid() && Rest() == SkipSpace(old(Rest()))
    {
      while at < |source| && IsSpace(source[at])
        invariant Valid() && SkipSpace(Rest()) == SkipSpace(old(Rest()))
      {
        assert Rest()[1..] == source[at + 1..];
        at := at + 1;
      }
    }

    lemma SliceFrom(start: nat)
      requires start <= at <= |source|
      ensures source[start..][..at - start] == source[start..at] && source[start..][at - start..] == Rest()
    {
    }

    /** Where an error stands: the characters that were not read. */
    method Fail(why: Why) returns (e: MessageError)
      requires Valid()
      ensures e == MessageError(why, |Rest()|)
    {
      e := MessageError(why, |source| - at);
    }

    method ReadWord() returns (r: Result<string, MessageError>)
      requires Valid()
      modifies this
      ensures Valid()
      ensures match Word(old(Rest()))
              case Ok((word, rest)) => r == Ok(word) && Rest() == rest
              case Err(e) => r == Err(e)
    {
      Space();
      var start := at;
      ghost var s := Rest();
      while at < |source| && IsWordChar(source[at])
        invariant start <= at <= |source|
        invariant WordLength(s) == at - start + WordLength(Rest())
      {
        assert Rest()[1..] == source[at + 1..];
        at := at + 1;
      }
      assert WordLength(s) == at - start;
      SliceFrom(start);
      if start == at {
        var e := Fail(ExpectedName);
        return Err(e);
      }
      assert s[..WordLength(s)] == source[start..at] && s[WordLength(s)..] == Rest();
      r := Ok(source[start..at]);
    }

    method ReadExpected(c: char) returns (r: Result<(), MessageError>)
      requires Valid()
      modifies this
      ensures Valid()
      ensures match Expect(old(Rest()), c)
              case Ok(rest) => r == Ok(()) && Rest() == rest
              case Err(e) => r == Err(e)
    {
      Space();
      if at < |source| && source[at] == c {
        RestFrom(1);
        at := at + 1;
        r := Ok(());
      } else {
        var e := Fail(Expected(c));
        r := Err(e);
      }
    }

    method ReadNodes(inPlural: bool, nested: bool) returns (r: Result<seq<Node>, MessageError>)
      requires Valid()
      modifies this
      ensures Valid()
      ensures match ParseNodes(old(Rest()), inPlural, nested, "")
              case Ok((nodes, rest)) => r == Ok(nodes) && Rest() == rest
              case Err(e) => r == Err(e)
      decreases |source| - at, 1
    {
      ghost var whole := ParseNodes(Rest(), inPlural, nested, "");
      var out: seq<Node> := [];
      var text := "";
      assert whole == Then(out, whole) by {
        assert whole.Ok? ==> [] + whole.value.0 == whole.value.0;
      }
      while at < |source|
        invariant old(at) <= at <= |source|
        invariant whole == Then(out, ParseNodes(Rest(), inPlural, nested, text))
        decreases |source| - at
      {
        var c := source[at];
        if c == '}' {
          if !nested {
            var e := Fail(UnexpectedBrace);
            return Err(e);
          }
          break;
        } else if (c == '#' && inPlural) || c == '{' {
          var node := ReadSpecial(inPlural, nested, text);
          if node.Err? {
            return Err(node.error);
          }
          ThenThen(out, Flush(text) + [node.value], ParseNodes(Rest(), inPlural, nested, ""));
          out := out + (Flush(text) + [node.value]);
          text := "";
        } else {
          var more := ReadText(inPlural, nested, text);
          if more.Err? {
            return Err(more.error);
          }
          text := more.value;
        }
      }
      r := Ok(out + Flush(text));
    }

    /** Text that goes on: an apostrophe and what it stands for, or a plain character. */
    method ReadText(inPlural: bool, ghost nested: bool, text: string) returns (r: Result<string, MessageError>)
      requires Valid() && at < |source|
      requires source[at] == '\'' || !(source[at] in {'{', '}'} || (source[at] == '#' && inPlural))
      modifies this
      ensures Valid() && (r.Ok? ==> at > old(at))
      ensures ParseNodes(old(Rest()), inPlural, nested, text)
           == if r.Ok? then ParseNodes(Rest(), inPlural, nested, r.value) else Err(r.error)
    {
      ghost var s := Rest();
      assert s[0] == source[at];
      if source[at] == '\'' {
        QuoteStep(s, inPlural, nested, text);
        r := Quote(inPlural, text);
      } else {
        PlainStep(s, inPlural, nested, text);
        RestFrom(1);
        r := Ok(text + [source[at]]);
        at := at + 1;
      }
    }

    method Quote(inPlural: bool, text: string) returns (r: Result<string, MessageError>)
      requires Valid() && at < |source| && source[at] == '\''
      modifies this
      ensures Valid() && (r.Ok? ==> at > old(at))
      ensures match ReadQuote(old(Rest()), inPlural, text)
              case Ok((more, rest)) => r == Ok(more) && Rest() == rest
              case Err(e) => r == Err(e)
    {
      ghost var s := Rest();
      if at + 1 < |source| && source[at + 1] == '\'' {
        RestFrom(2);
        at := at + 2;
        return Ok(text + "'");
      }
      if at + 1 < |source| && IsSyntax(source[at + 1], inPlural) {
        var close := IndexOf(source, '\'', at + 1);
        QuoteInRest();
        if close.None? {
          var e := Fail(UnclosedQuote);
          return Err(e);
        }
        var n := close.value - at;
        RestFrom(n + 1);
        assert source[at + 1..close.value] == s[1..n];
        r := Ok(text + source[at + 1..close.value]);
        at := close.value + 1;
        assert Rest() == s[n + 1..];
        return;
      }
      RestFrom(1);
      assert source[at..at + 1] == s[..1];
      at := at + 1;
      r := Ok(text + source[at - 1..at]);
    }

    /** A `#` inside a plural, or a braced argument; `text` is what precedes it. */
    method ReadSpecial(inPlural: bool, ghost nested: bool, ghost text: string) returns (r: Result<Node, MessageError>)
      requires Valid() && at < |source| && ((source[at] == '#' && inPlural) || source[at] == '{')
      modifies this
      ensures Valid() && (r.Ok? ==> at > old(at))
      ensures ParseNodes(old(Rest()), inPlural, nested, text)
           == if r.Ok? then Then(Flush(text) + [r.value], ParseNodes(Rest(), inPlural, nested, ""))
              else Err(r.error)
      decreases |source| - at, 0
    {
      RestFrom(1);
      if source[at] == '#' {
        at := at + 1;
        return Ok(Pound);
      }
      at := at + 1;
      r := ReadArgument();
    }

    lemma QuoteInRest()
      requires Valid() && at < |source|
      ensures IndexOf(Rest(), '\'', 1)
           == (match IndexOf(source, '\'', at + 1) case None => None case Some(i) => Some(i - at))
    {
      QuoteShift(1);
    }

    lemma {:induction false} QuoteShift(from: nat)
      requires Valid() && from <= |Rest()|
      ensures IndexOf(Rest(), '\'', from)
           == (match IndexOf(source, '\'', at + from) case None => None case Some(i) => Some(i - at))
      decreases |Rest()| - from
    {
      if from < |Rest()| && Rest()[from] != '\'' {
        QuoteShift(from + 1);
      }
    }

    lemma ThenThen(a: seq<Node>, b: seq<Node>, r: NodesRead)
      ensures Then(a, Then(b, r)) == Then(a + b, r)
    {
      if r.Ok? {
        assert a + (b + r.value.0) == (a + b) + r.value.0;
      }
    }

    method ReadArgument() returns (r: Result<Node, MessageError>)
      requires Valid()
      modifies this
      ensures Valid()
      ensures match ParseArgument(old(Rest()))
              case Ok((node, rest)) => r == Ok(node) && Rest() == rest
              case Err(e) => r == Err(e)
      decreases |source| - at, 0
    {
      var name := ReadWord();
      if name.Err? {
        return Err(name.error);
      }
      Space();
      if at < |source| && source[at] == '}' {
        RestFrom(1);
        at := at + 1;
        return Ok(Arg(name.value, false));
      }
      var comma := ReadExpected(',');
      if comma.Err? {
        return Err(comma.error);
      }
      var kind := ReadWord();
      if kind.Err? {
        return Err(kind.error);
      }
      Space();
      r := ReadTyped(name.value, kind.value);
    }

    method ReadTyped(name: string, kind: string) returns (r: Result<Node, MessageError>)
      requires Valid()
      modifies this
      ensures Valid()
      ensures match ParseTyped(name, kind, old(Rest()))
              case Ok((node, rest)) => r == Ok(node) && Rest() == rest
              case Err(e) => r == Err(e)
      decreases |source| - at, 0
    {
      if kind == "number" {
        var close := ReadExpected('}');
        return if close.Err? then Err(close.error) else Ok(Arg(name, true));
      }
      if kind != "plural" && kind != "select" {
        var e := Fail(UnsupportedType(kind));
        return Err(e);
      }
      var comma := ReadExpected(',');
      if comma.Err? {
        return Err(comma.error);
      }
      Space();
      var cases := ReadCases(kind == "plural");
      if cases.Err? {
        return Err(cases.error);
      }
      if !Has(cases.value, "other") {
        var e := Fail(NeedsOther(name));
        return Err(e);
      }
      r := Ok(Branch(if kind == "plural" then Plural else Select, name, cases.value));
    }

    method ReadCases(inPlural: bool) returns (r: Result<seq<Case>, MessageError>)
      requires Valid()
      modifies this
      ensures Valid()
      ensures match ParseCases(old(Rest()), inPlural, [])
              case Ok((cases, rest)) => r == Ok(cases) && Rest() == rest
              case Err(e) => r == Err(e)
      decreases |source| - at, 2
    {
      ghost var whole := ParseCases(Rest(), inPlural, []);
      var cases: seq<Case> := [];
      while !(at < |source| && source[at] == '}')
        invariant old(at) <= at <= |source|
        invariant whole == ParseCases(Rest(), inPlural, cases)
        decreases |source| - at
      {
        var selector := ReadWord();
        if selector.Err? {
          return Err(selector.error);
        }
        var open := ReadExpected('{');
        if open.Err? {
          return Err(open.error);
        }
        var body := ReadNodes(inPlural, true);
        if body.Err? {
          return Err(body.error);
        }
        var close := ReadExpected('}');
        if close.Err? {
          return Err(close.error);
        }
        Space();
        if at >= |source| {
          var e := Fail(UnclosedArgument);
          return Err(e);
        }
        cases := Put(cases, Case(selector.value, body.value));
      }
      RestFrom(1);
      at := at + 1;
      r := Ok(cases);
    }
  }

  method ParseMessage(source: string) returns (r: Result<seq<Node>, MessageError>)
    ensures r == Parse(source)
  {
    var cursor := new Cursor(source);
    var out := cursor.ReadNodes(false, false);
    if out.Err? {
      return Err(out.error);
    }
    if cursor.at < |source| {
      var e := cursor.Fail(UnexpectedBrace);
      return Err(e);
    }
    r := out;
  }
}
