/** What a formatted message says, read off its nodes. */
module MessageMeaning {
  import opened Outcome
  import opened Numbers
  import opened Message
  import opened MessageProofs

  /** Each `#` that stands directly among the nodes becomes the literal text. */
  function Filled(nodes: seq<Node>, text: string): (r: seq<Node>)
    ensures |r| == |nodes|
    ensures forall i :: 0 <= i < |r| ==> r[i] == if nodes[i].Pound? then Text(text) else nodes[i]
  {
    seq(|nodes|, i requires 0 <= i < |nodes| => if nodes[i].Pound? then Text(text) else nodes[i])
  }

  function Concat(texts: seq<string>): string {
    if texts == [] then "" else texts[0] + Concat(texts[1..])
  }

  /** The case of the first of the selectors that there is a case for. */
  ghost predicate CaseOf(cases: seq<Case>, wanted: seq<string>, i: nat) {
    && i < |cases|
    && exists k :: 0 <= k < |wanted| && cases[i].selector == wanted[k] && forall j :: 0 <= j < k ==> !Has(cases, wanted[j])
  }

  lemma {:induction false} FindMeans(cases: seq<Case>, selector: string)
    ensures Find(cases, selector).Some? <==> Has(cases, selector)
  {
    if cases != [] && cases[0].selector != selector {
      FindMeans(cases[1..], selector);
      if i :| 0 <= i < |cases| && cases[i].selector == selector {
        assert cases[1..][i - 1].selector == selector;
      }
      if i :| 0 <= i < |cases[1..]| && cases[1..][i].selector == selector {
        assert cases[i + 1].selector == selector;
      }
    }
  }

  lemma ChooseMeans(cases: seq<Case>, wanted: string) returns (i: nat)
    requires Has(cases, "other")
    ensures Choose(cases, wanted) == Some(i) && CaseOf(cases, [wanted, "other"], i)
  {
    FindMeans(cases, wanted);
    FindMeans(cases, "other");
    i := Choose(cases, wanted).value;
    var both := [wanted, "other"];
    assert both[0] == wanted && both[1] == "other";
  }

  lemma {:induction false} RenderFilled<N>(nodes: seq<Node>, args: map<string, Value<N>>, locale: Locale<N>, n: N)
    ensures Render(nodes, args, locale, Some(n)) == Render(Filled(nodes, locale.format(n)), args, locale, None)
    decreases |nodes|
  {
    if nodes != [] {
      var filled := Filled(nodes, locale.format(n));
      RenderFilled(nodes[1..], args, locale, n);
      assert filled[1..] == Filled(nodes[1..], locale.format(n));
    }
  }

  /** A list of nodes says what its nodes say, one after the other. */
  lemma {:induction false} NodesSay<N>(nodes: seq<Node>, args: map<string, Value<N>>, locale: Locale<N>, texts: seq<string>)
    requires |texts| == |nodes| && forall i :: 0 <= i < |nodes| ==> texts[i] == Render([nodes[i]], args, locale, None)
    ensures Render(nodes, args, locale, None) == Concat(texts)
    decreases |nodes|
  {
    if nodes != [] {
      NodesSay(nodes[1..], args, locale, texts[1..]);
      OneNode(nodes[0], args, locale);
    }
  }

  lemma OneNode<N>(node: Node, args: map<string, Value<N>>, locale: Locale<N>)
    ensures Render([node], args, locale, None) == RenderNode(node, args, locale, None)
  {
    assert [node][1..] == [];
  }

  /** Literal text says itself. */
  lemma TextSays<N>(text: string, args: map<string, Value<N>>, locale: Locale<N>)
    ensures Render([Text(text)], args, locale, None) == text
  {
    OneNode(Text(text), args, locale);
  }

  /** An argument says its value, numbers in the locale's format; without a value it says its name in braces. */
  lemma ArgumentSays<N>(name: string, number: bool, args: map<string, Value<N>>, locale: Locale<N>)
    ensures var text := Render([Arg(name, number)], args, locale, None);
            && (name !in args ==> text == "{" + name + "}")
            && (name in args && args[name].Num? ==> text == locale.format(locale.toNumber(Some(args[name]))))
            && (name in args && args[name].Str? && number ==> text == locale.format(locale.toNumber(Some(args[name]))))
            && (name in args && args[name].Str? && !number ==> text == locale.toText(Some(args[name])))
  {
    OneNode(Arg(name, number), args, locale);
  }

  function Given<N>(args: map<string, Value<N>>, name: string): (r: Option<Value<N>>)
    ensures name in args ==> r == Some(args[name])
    ensures name !in args ==> r == None
  {
    if name in args then Some(args[name]) else None
  }

  /** A select says the case of its text, or the case `other`. */
  lemma SelectSays<N>(name: string, cases: seq<Case>, args: map<string, Value<N>>, locale: Locale<N>) returns (i: nat)
    requires Has(cases, "other")
    ensures CaseOf(cases, [locale.toText(Given(args, name)), "other"], i)
    ensures Render([Branch(Select, name, cases)], args, locale, None) == Render(cases[i].body, args, locale, None)
  {
    OneNode(Branch(Select, name, cases), args, locale);
    i := ChooseMeans(cases, locale.toText(Given(args, name)));
  }

  /**
   * A plural says the case `=n` of its number, or else the case of the number's category, or else the case
   * `other`, with the number in the locale's format for each `#` directly in that case.
   */
  lemma PluralSays<N>(name: string, cases: seq<Case>, args: map<string, Value<N>>, locale: Locale<N>) returns (i: nat)
    requires Has(cases, "other")
    ensures var n := locale.toNumber(Given(args, name));
            && CaseOf(cases, ["=" + locale.show(n), locale.category(n), "other"], i)
            && Render([Branch(Plural, name, cases)], args, locale, None)
               == Render(Filled(cases[i].body, locale.format(n)), args, locale, None)
  {
    OneNode(Branch(Plural, name, cases), args, locale);
    var n := locale.toNumber(Given(args, name));
    var exact := "=" + locale.show(n);
    var wanted := [exact, locale.category(n), "other"];
    FindMeans(cases, exact);
    if Has(cases, exact) {
      i := Find(cases, exact).value;
      assert wanted[0] == exact;
    } else {
      i := ChooseMeans(cases, locale.category(n));
      PickedLater(cases, exact, locale.category(n), i);
    }
    RenderFilled(cases[i].body, args, locale, n);
  }

  lemma PickedLater(cases: seq<Case>, first: string, second: string, i: nat)
    requires !Has(cases, first) && CaseOf(cases, [second, "other"], i)
    ensures CaseOf(cases, [first, second, "other"], i)
  {
    var two, three := [second, "other"], [first, second, "other"];
    var k :| 0 <= k < |two| && cases[i].selector == two[k] && forall j :: 0 <= j < k ==> !Has(cases, two[j]);
    assert three[k + 1] == two[k];
    assert forall j :: 0 < j <= k ==> three[j] == two[j - 1];
  }

  /** `formatMessage` says what the nodes of its source say, one after the other. */
  lemma FormatSays<N>(source: string, args: map<string, Value<N>>, locale: Locale<N>, nodes: seq<Node>, texts: seq<string>)
    requires Parse(source) == Ok(nodes)
    requires |texts| == |nodes| && forall i :: 0 <= i < |nodes| ==> texts[i] == Render([nodes[i]], args, locale, None)
    ensures Format(source, args, locale) == Ok(Concat(texts))
  {
    NodesSay(nodes, args, locale, texts);
  }

  // ----- the names -----

  /** The message reads the argument somewhere. */
  ghost predicate Mentions(nodes: seq<Node>, name: string)
    decreases nodes
  {
    exists i :: 0 <= i < |nodes| && MentionedBy(nodes[i], name)
  }

  ghost predicate MentionedBy(node: Node, name: string)
    decreases node
  {
    || (node.Arg? && node.name == name)
    || (node.Branch? && (node.name == name || exists i :: 0 <= i < |node.cases| && Mentions(node.cases[i].body, name)))
  }

  lemma {:induction false} NamesAreMentioned(nodes: seq<Node>, name: string)
    ensures name in Names(nodes) <==> Mentions(nodes, name)
    decreases nodes
  {
    if nodes != [] {
      NodeNamesAreMentioned(nodes[0], name);
      NamesAreMentioned(nodes[1..], name);
      if i :| 0 <= i < |nodes| && MentionedBy(nodes[i], name) {
        assert i > 0 ==> nodes[1..][i - 1] == nodes[i];
      }
      if i :| 0 <= i < |nodes[1..]| && MentionedBy(nodes[1..][i], name) {
        assert nodes[i + 1] == nodes[1..][i];
      }
    }
  }

  lemma {:induction false} NodeNamesAreMentioned(node: Node, name: string)
    ensures name in NodeNames(node) <==> MentionedBy(node, name)
    decreases node, 1
  {
    if node.Branch? {
      CaseNamesAreMentioned(node.cases, name);
    }
  }

  lemma {:induction false} CaseNamesAreMentioned(cases: seq<Case>, name: string)
    ensures name in CaseNames(cases) <==> exists i :: 0 <= i < |cases| && Mentions(cases[i].body, name)
    decreases cases, 0
  {
    if cases != [] {
      NamesAreMentioned(cases[0].body, name);
      CaseNamesAreMentioned(cases[1..], name);
      if i :| 0 <= i < |cases| && Mentions(cases[i].body, name) {
        assert i > 0 ==> cases[1..][i - 1] == cases[i];
      }
      if i :| 0 <= i < |cases[1..]| && Mentions(cases[1..][i].body, name) {
        assert cases[i + 1] == cases[1..][i];
      }
    }
  }

  // ----- the object of cases -----

  /** An array index: the numeral of a number below 2^32 - 1. */
  ghost predicate Indexes(key: string, n: nat) {
    n < 4294967295 && key == Digits(n)
  }

  lemma {:induction false} DigitsDecimal(n: nat)
    ensures IsDigits(Digits(n)) && Digits(n) != "" && Decimal(Digits(n)) == n
    ensures Digits(n)[0] == '0' <==> n == 0
  {
    var front := if n < 10 then "" else Digits(n / 10);
    assert Digits(n)[..|Digits(n)| - 1] == front;
    if n >= 10 {
      DigitsDecimal(n / 10);
    }
  }

  lemma {:induction false} DecimalDigits(s: string)
    requires s != "" && IsDigits(s) && (s == "0" || s[0] != '0')
    ensures s == Digits(Decimal(s))
  {
    var front, last := s[..|s| - 1], s[|s| - 1];
    assert s == front + [last];
    var d := last as int - '0' as int;
    if front != "" {
      DecimalDigits(front);
      DigitsDecimal(Decimal(front));
    }
    DigitsStep(Decimal(front), d);
    assert [('0' as int + d) as char] == [last];
  }

  lemma DigitsStep(q: nat, d: nat)
    requires d < 10
    ensures Digits(10 * q + d) == (if q == 0 then "" else Digits(q)) + [('0' as int + d) as char]
  {
    assert (10 * q + d) / 10 == q && (10 * q + d) % 10 == d;
  }

  lemma IndexMeans(key: string, n: nat)
    ensures IsIndex(key) && Decimal(key) == n <==> Indexes(key, n)
  {
    DigitsDecimal(n);
    if IsIndex(key) {
      DecimalDigits(key);
    }
  }

  /** `a` may stand before `b`: it is another key, and before an array index only a smaller one. */
  ghost predicate MayPrecede(a: string, b: string) {
    a != b && forall n: nat :: Indexes(b, n) ==> exists m: nat :: m < n && Indexes(a, m)
  }

  /** The keys of an object: each once, array indices first and ascending. */
  ghost predicate Keyed(cases: seq<Case>) {
    forall i, j :: 0 <= i < j < |cases| ==> MayPrecede(cases[i].selector, cases[j].selector)
  }

  lemma MayPrecedeMeans(a: string, b: string)
    ensures MayPrecede(a, b) <==> a != b && !Precedes(b, a)
  {
    if IsIndex(b) {
      var n := Decimal(b);
      IndexMeans(b, n);
      if MayPrecede(a, b) {
        var m: nat :| m < n && Indexes(a, m);
        IndexMeans(a, m);
      }
    }
    if a != b && !Precedes(b, a) {
      forall n: nat | Indexes(b, n)
        ensures exists m: nat :: m < n && Indexes(a, m)
      {
        IndexMeans(b, n);
        IndexMeans(a, Decimal(a));
        assert Decimal(a) < n;
      }
    }
  }

  lemma KeyedEnumerable(cases: seq<Case>)
    ensures Keyed(cases) <==> Enumerable(cases)
  {
    forall i, j | 0 <= i < j < |cases|
      ensures MayPrecede(cases[i].selector, cases[j].selector)
         <==> cases[i].selector != cases[j].selector && !Precedes(cases[j].selector, cases[i].selector)
    {
      MayPrecedeMeans(cases[i].selector, cases[j].selector);
    }
  }

  lemma PrecedingIsNew(cases: seq<Case>, c: Case)
    requires Enumerable(cases) && cases != [] && cases[0].selector != c.selector && Precedes(c.selector, cases[0].selector)
    ensures !Has(cases, c.selector)
  {
  }

  /** Where the case goes: in place of the one of its selector, or in between, and behind all unless its key is an index. */
  lemma {:induction false} PutAt(cases: seq<Case>, c: Case) returns (i: nat)
    requires Enumerable(cases)
    ensures if Has(cases, c.selector) then i < |cases| && cases[i].selector == c.selector && Put(cases, c) == cases[i := c]
            else i <= |cases| && Put(cases, c) == cases[..i] + [c] + cases[i..] && (IsIndex(c.selector) || i == |cases|)
  {
    i := 0;
    if cases != [] {
      var head, tail := cases[0], cases[1..];
      HasTail(cases, c.selector);
      if head.selector != c.selector && Precedes(c.selector, head.selector) {
        PrecedingIsNew(cases, c);
      } else if head.selector != c.selector {
        var k := PutAt(tail, c);
        i := k + 1;
        HeadKept(cases, head, tail, k, c);
      }
    }
  }

  lemma HeadKept(cases: seq<Case>, head: Case, tail: seq<Case>, k: nat, c: Case)
    requires cases == [head] + tail && k <= |tail|
    ensures [head] + (tail[..k] + [c] + tail[k..]) == cases[..k + 1] + [c] + cases[k + 1..]
    ensures k < |tail| ==> [head] + tail[k := c] == cases[k + 1 := c] && cases[k + 1] == tail[k]
  {
  }

  lemma HasTail(cases: seq<Case>, selector: string)
    requires cases != []
    ensures Has(cases, selector) <==> cases[0].selector == selector || Has(cases[1..], selector)
  {
    if i :| 0 <= i < |cases| && cases[i].selector == selector && i > 0 {
      assert cases[1..][i - 1].selector == selector;
    }
    if i :| 0 <= i < |cases[1..]| && cases[1..][i].selector == selector {
      assert cases[i + 1].selector == selector;
    }
  }

  /**
   * Assignment to a key of the object of cases: a key it has keeps its place with the new case; a new one comes in
   * where the keys stay in order, which is last unless it is an array index.
   */
  lemma PutMeans(cases: seq<Case>, c: Case) returns (i: nat)
    requires Keyed(cases)
    ensures Keyed(Put(cases, c))
    ensures if Has(cases, c.selector) then i < |cases| && cases[i].selector == c.selector && Put(cases, c) == cases[i := c]
            else i <= |cases| && Put(cases, c) == cases[..i] + [c] + cases[i..]
                 && (i == |cases| || exists n: nat :: Indexes(c.selector, n))
  {
    KeyedEnumerable(cases);
    PutEnumerable(cases, c);
    KeyedEnumerable(Put(cases, c));
    i := PutAt(cases, c);
    if IsIndex(c.selector) {
      IndexMeans(c.selector, Decimal(c.selector));
    }
  }
}
