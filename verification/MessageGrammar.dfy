/** The message syntax as a grammar, and that the parser reads exactly its sentences. */
module MessageGrammar {
  import opened Outcome
  import opened JsText
  import opened Sequences
  import opened Message

  // ----- the grammar -----

  /** What a source is made of; the `gap`s are white space. */
  datatype Piece =
    | Plain(c: char)
    | Doubled                                                     // two apostrophes: one of them
    | Quoted(run: string)                                         // between apostrophes, from a brace or `#` on
    | Lone                                                        // an apostrophe that quotes nothing
    | Hash
    | Hole(name: string, gap1: string, gap2: string)              // {name}
    | NumberHole(name: string, gap1: string, gap2: string, gap3: string, gap4: string)        // {name, number}
    | Choice(kind: Kind, name: string, gap1: string, gap2: string, gap3: string, gap4: string, gap5: string, arms: seq<Arm>)

  /** `selector {body}`. */
  datatype Arm = Arm(selector: string, gap1: string, body: seq<Piece>, gap2: string)

  function Keyword(kind: Kind): string {
    if kind.Plural? then "plural" else "select"
  }

  /** The text of the pieces, in front of `rest`. */
  function Spell(pieces: seq<Piece>, rest: string): string
    decreases pieces
  {
    if pieces == [] then rest else SpellPiece(pieces[0], Spell(pieces[1..], rest))
  }

  function SpellPiece(p: Piece, rest: string): string
    decreases p
  {
    match p
    case Plain(c) => [c] + rest
    case Doubled => "''" + rest
    case Quoted(run) => "'" + (run + ("'" + rest))
    case Lone => "'" + rest
    case Hash => "#" + rest
    case Hole(name, gap1, gap2) => "{" + (gap1 + (name + (gap2 + ("}" + rest))))
    case NumberHole(name, gap1, gap2, gap3, gap4) =>
      "{" + (gap1 + (name + (gap2 + ("," + (gap3 + ("number" + (gap4 + ("}" + rest))))))))
    case Choice(kind, name, gap1, gap2, gap3, gap4, gap5, arms) =>
      "{" + (gap1 + (name + (gap2 + ("," + (gap3 + (Keyword(kind) + (gap4 + ("," + (gap5 + SpellArms(arms, "}" + rest))))))))))
  }

  function SpellArms(arms: seq<Arm>, rest: string): string
    decreases arms
  {
    if arms == [] then rest else SpellArm(arms[0], SpellArms(arms[1..], rest))
  }

  function SpellArm(arm: Arm, rest: string): string
    decreases arm
  {
    arm.selector + (arm.gap1 + ("{" + Spell(arm.body, "}" + (arm.gap2 + rest))))
  }

  predicate Gap(s: string) {
    forall i :: 0 <= i < |s| ==> IsSpace(s[i])
  }

  predicate Name(s: string) {
    s != "" && forall i :: 0 <= i < |s| ==> !IsSpace(s[i]) && s[i] !in {',', '{', '}'}
  }

  /** A character that means more than itself. */
  predicate Special(c: char, inPlural: bool) {
    c in {'{', '}'} || (c == '#' && inPlural)
  }

  /** The first character of the pieces in front of `next`. */
  function FirstOf(pieces: seq<Piece>, next: Option<char>): Option<char> {
    if pieces == [] then next
    else match pieces[0]
      case Plain(c) => Some(c)
      case Hash => Some('#')
      case Doubled => Some('\'')
      case Quoted(_) => Some('\'')
      case Lone => Some('\'')
      case _ => Some('{')
  }

  /** The pieces may stand, directly inside a plural or not, in front of the character `next`. */
  predicate Fits(pieces: seq<Piece>, inPlural: bool, next: Option<char>)
    decreases pieces
  {
    pieces == [] || (FitsPiece(pieces[0], inPlural, FirstOf(pieces[1..], next)) && Fits(pieces[1..], inPlural, next))
  }

  predicate FitsPiece(p: Piece, inPlural: bool, next: Option<char>)
    decreases p
  {
    match p
    case Plain(c) => c != '\'' && !Special(c, inPlural)
    case Doubled => true
    case Quoted(run) => run != "" && Special(run[0], inPlural) && '\'' !in run
    case Lone => next.None? || (next.value != '\'' && !Special(next.value, inPlural))
    case Hash => inPlural
    case Hole(name, gap1, gap2) => Name(name) && Gap(gap1) && Gap(gap2)
    case NumberHole(name, gap1, gap2, gap3, gap4) => Name(name) && Gap(gap1) && Gap(gap2) && Gap(gap3) && Gap(gap4)
    case Choice(kind, name, gap1, gap2, gap3, gap4, gap5, arms) =>
      && Name(name) && Gap(gap1) && Gap(gap2) && Gap(gap3) && Gap(gap4) && Gap(gap5)
      && FitsArms(arms, kind.Plural?) && exists i :: 0 <= i < |arms| && arms[i].selector == "other"
  }

  predicate FitsArms(arms: seq<Arm>, inPlural: bool)
    decreases arms
  {
    arms == [] || (FitsArm(arms[0], inPlural) && FitsArms(arms[1..], inPlural))
  }

  predicate FitsArm(arm: Arm, inPlural: bool)
    decreases arm
  {
    Name(arm.selector) && Gap(arm.gap1) && Gap(arm.gap2) && Fits(arm.body, inPlural, Some('}'))
  }

  /** The text a piece stands for, if it stands for text. */
  function Literal(p: Piece): Option<string> {
    match p
    case Plain(c) => Some([c])
    case Doubled => Some("'")
    case Quoted(run) => Some(run)
    case Lone => Some("'")
    case _ => None
  }

  function Run(text: string): seq<Node> {
    if text == "" then [] else [Text(text)]
  }

  /** The nodes that pieces mean, behind `text`: pieces of text next to each other are one text. */
  function Meaning(pieces: seq<Piece>, text: string): seq<Node>
    decreases pieces
  {
    if pieces == [] then Run(text)
    else
      var p := pieces[0];
      if Literal(p).Some? then Meaning(pieces[1..], text + Literal(p).value)
      else Run(text) + [NodeOf(p)] + Meaning(pieces[1..], "")
  }

  function NodeOf(p: Piece): Node
    requires Literal(p).None?
    decreases p
  {
    match p
    case Hash => Pound
    case Hole(name, _, _) => Arg(name, false)
    case NumberHole(name, _, _, _, _) => Arg(name, true)
    case Choice(kind, name, _, _, _, _, _, arms) => Branch(kind, name, Object(arms, []))
  }

  /** The object of the cases, assigned one after the other. */
  function Object(arms: seq<Arm>, cases: seq<Case>): seq<Case>
    decreases arms
  {
    if arms == [] then cases else Object(arms[1..], Put(cases, CaseOf(arms[0])))
  }

  function CaseOf(arm: Arm): Case
    decreases arm
  {
    Case(arm.selector, Meaning(arm.body, ""))
  }

  // ----- words and white space -----

  lemma {:induction false} SkipGap(gap: string, rest: string)
    requires Gap(gap) && (rest == "" || !IsSpace(rest[0]))
    ensures SkipSpace(gap + rest) == rest
  {
    if gap == "" {
      assert gap + rest == rest;
    } else {
      assert (gap + rest)[1..] == gap[1..] + rest;
      SkipGap(gap[1..], rest);
    }
  }

  lemma {:induction false} NameLength(name: string, rest: string)
    requires (name == "" || Name(name)) && (rest == "" || !IsWordChar(rest[0]))
    ensures WordLength(name + rest) == |name|
  {
    if name == "" {
      assert name + rest == rest;
    } else {
      assert (name + rest)[1..] == name[1..] + rest;
      NameLength(name[1..], rest);
    }
  }

  lemma ReadName(gap: string, name: string, rest: string)
    requires Gap(gap) && Name(name) && (rest == "" || !IsWordChar(rest[0]))
    ensures Word(gap + (name + rest)) == Ok((name, rest))
  {
    var t := name + rest;
    assert t[0] == name[0];
    SkipGap(gap, t);
    NameLength(name, rest);
    assert t[..|name|] == name && t[|name|..] == rest;
  }

  lemma ReadExpected(gap: string, c: char, rest: string)
    requires Gap(gap) && !IsSpace(c)
    ensures Expect(gap + ([c] + rest), c) == Ok(rest)
  {
    SkipGap(gap, [c] + rest);
    assert ([c] + rest)[1..] == rest;
  }

  lemma {:induction false} SplitGap(s: string) returns (gap: string)
    ensures Gap(gap) && s == gap + SkipSpace(s)
  {
    gap := "";
    if s != "" && IsSpace(s[0]) {
      var more := SplitGap(s[1..]);
      gap := s[..1] + more;
      assert s == s[..1] + s[1..];
    }
  }

  lemma SplitName(s: string, name: string, rest: string) returns (gap: string)
    requires Word(s) == Ok((name, rest))
    ensures Gap(gap) && Name(name) && s == gap + (name + rest)
  {
    gap := SplitGap(s);
    var t := SkipSpace(s);
    var n := WordLength(t);
    assert t == t[..n] + t[n..];
  }

  lemma NoGap(gap: string, s: string, rest: string)
    requires Gap(gap) && s == gap + rest && s != ""
    ensures s == rest || IsSpace(s[0])
  {
    if gap != "" {
      assert s[0] == gap[0];
    }
  }

  lemma SplitExpected(s: string, c: char, rest: string) returns (gap: string)
    requires Expect(s, c) == Ok(rest)
    ensures Gap(gap) && s == gap + ([c] + rest)
  {
    gap := SplitGap(s);
    var t := SkipSpace(s);
    assert t == [c] + t[1..];
  }

  // ----- every sentence is read -----

  lemma AfterGap(gap: string, c: char, rest: string)
    requires Gap(gap) && c in {',', '{', '}'}
    ensures gap + ([c] + rest) != "" && !IsWordChar((gap + ([c] + rest))[0])
    ensures SkipSpace(gap + ([c] + rest)) == [c] + rest && ([c] + rest)[1..] == rest
  {
    SkipGap(gap, [c] + rest);
    if gap != "" {
      assert (gap + ([c] + rest))[0] == gap[0];
    }
  }

  lemma ReadHole(name: string, gap1: string, gap2: string, rest: string)
    requires Name(name) && Gap(gap1) && Gap(gap2)
    ensures ParseArgument(gap1 + (name + (gap2 + ("}" + rest)))) == Ok((Arg(name, false), rest))
  {
    AfterGap(gap2, '}', rest);
    ReadName(gap1, name, gap2 + (['}'] + rest));
  }

  /** What follows the comma behind a name. */
  function AfterComma(name: string, s: string): Result<(Node, string), MessageError> {
    var (kind, afterKind) :- Word(s);
    ParseTyped(name, kind, SkipSpace(afterKind))
  }

  lemma ReadComma(name: string, gap1: string, gap2: string, typed: string)
    requires Name(name) && Gap(gap1) && Gap(gap2)
    ensures ParseArgument(gap1 + (name + (gap2 + ("," + typed)))) == AfterComma(name, typed)
  {
    AfterGap(gap2, ',', typed);
    ReadName(gap1, name, gap2 + ([','] + typed));
    ReadExpected("", ',', typed);
    assert "" + ([','] + typed) == [','] + typed;
  }

  lemma ReadKind(name: string, gap3: string, kind: string, gap4: string, c: char, rest: string)
    requires Name(kind) && Gap(gap3) && Gap(gap4) && c in {',', '}'}
    ensures AfterComma(name, gap3 + (kind + (gap4 + ([c] + rest)))) == ParseTyped(name, kind, [c] + rest)
  {
    AfterGap(gap4, c, rest);
    ReadName(gap3, kind, gap4 + ([c] + rest));
  }

  /** An argument up to its type. */
  lemma ReadTyped(name: string, gap1: string, gap2: string, gap3: string, kind: string, gap4: string, c: char, rest: string)
    requires Name(name) && Name(kind) && Gap(gap1) && Gap(gap2) && Gap(gap3) && Gap(gap4) && c in {',', '}'}
    ensures ParseArgument(gap1 + (name + (gap2 + ("," + (gap3 + (kind + (gap4 + ([c] + rest))))))))
         == ParseTyped(name, kind, [c] + rest)
  {
    ReadComma(name, gap1, gap2, gap3 + (kind + (gap4 + ([c] + rest))));
    ReadKind(name, gap3, kind, gap4, c, rest);
  }

  lemma ReadNumberTyped(name: string, rest: string)
    ensures ParseTyped(name, "number", "}" + rest) == Ok((Arg(name, true), rest))
  {
    ReadExpected("", '}', rest);
    assert "" + (['}'] + rest) == "}" + rest;
  }

  lemma ReadBranchTyped(kind: Kind, name: string, gap5: string, text: string, cases: seq<Case>, rest: string)
    requires Gap(gap5) && text != "" && !IsSpace(text[0])
    requires ParseCases(text, kind.Plural?, []) == Ok((cases, rest)) && Has(cases, "other")
    ensures ParseTyped(name, Keyword(kind), "," + (gap5 + text)) == Ok((Branch(kind, name, cases), rest))
  {
    var s := gap5 + text;
    ReadExpected("", ',', s);
    Unit([','] + s);
    SkipGap(gap5, text);
    ReadCasesTyped(kind, name, "," + s, s, cases, rest);
  }

  lemma ReadCasesTyped(kind: Kind, name: string, s: string, s1: string, cases: seq<Case>, rest: string)
    requires Expect(s, ',') == Ok(s1) && Has(cases, "other")
    requires ParseCases(SkipSpace(s1), kind.Plural?, []) == Ok((cases, rest))
    ensures ParseTyped(name, Keyword(kind), s) == Ok((Branch(kind, name, cases), rest))
  {
    var plural := Keyword(kind) == "plural";
    assert plural == kind.Plural? && Keyword(kind) != "number";
  }

  lemma ArmsStart(arms: seq<Arm>, inPlural: bool, rest: string)
    requires FitsArms(arms, inPlural)
    ensures var s := SpellArms(arms, "}" + rest); s != "" && !IsSpace(s[0]) && (arms != [] ==> s[0] != '}')
  {
    if arms != [] {
      var more := SpellArms(arms[1..], "}" + rest);
      assert SpellArm(arms[0], more)[0] == arms[0].selector[0];
    }
  }

  /** One case of an argument. */
  lemma ReadArm(arm: Arm, inPlural: bool, cases: seq<Case>, body: seq<Node>, rest: string)
    requires Name(arm.selector) && Gap(arm.gap1) && Gap(arm.gap2) && rest != "" && !IsSpace(rest[0])
    requires ParseNodes(Spell(arm.body, "}" + (arm.gap2 + rest)), inPlural, true, "") == Ok((body, "}" + (arm.gap2 + rest)))
    ensures ParseCases(SpellArm(arm, rest), inPlural, cases)
         == ParseCases(rest, inPlural, Put(cases, Case(arm.selector, body)))
  {
    var s := SpellArm(arm, rest);
    var inner := Spell(arm.body, "}" + (arm.gap2 + rest));
    var s1 := arm.gap1 + (['{'] + inner);
    assert s == arm.selector + s1 && s[0] == arm.selector[0];
    AfterGap(arm.gap1, '{', inner);
    ReadName("", arm.selector, s1);
    assert "" + (arm.selector + s1) == s;
    ReadExpected(arm.gap1, '{', inner);
    ReadExpected("", '}', arm.gap2 + rest);
    assert "" + (['}'] + (arm.gap2 + rest)) == "}" + (arm.gap2 + rest);
    SkipGap(arm.gap2, rest);
  }

  lemma {:induction false} ReadArms(arms: seq<Arm>, inPlural: bool, cases: seq<Case>, rest: string)
    requires FitsArms(arms, inPlural)
    ensures ParseCases(SpellArms(arms, "}" + rest), inPlural, cases) == Ok((Object(arms, cases), rest))
    decreases arms
  {
    if arms == [] {
      assert ("}" + rest)[1..] == rest;
    } else {
      var arm, more := arms[0], SpellArms(arms[1..], "}" + rest);
      var after := "}" + (arm.gap2 + more);
      ArmsStart(arms[1..], inPlural, rest);
      assert after[0] == '}';
      ReadPieces(arm.body, inPlural, true, "", after);
      ReadArm(arm, inPlural, cases, Meaning(arm.body, ""), more);
      ReadArms(arms[1..], inPlural, Put(cases, CaseOf(arm)), rest);
    }
  }

  lemma {:induction false} PutHas(cases: seq<Case>, c: Case, selector: string)
    ensures Has(Put(cases, c), selector) <==> Has(cases, selector) || c.selector == selector
  {
    var all := Put(cases, c);
    if cases == [] {
      assert all == [c] && all[0] == c;
    } else {
      var tail := cases[1..];
      PutHas(tail, c, selector);
      HasSplit(cases, cases[0], tail, selector);
      if cases[0].selector == c.selector {
        HasSplit(all, c, tail, selector);
      } else if Precedes(c.selector, cases[0].selector) {
        HasSplit(all, c, cases, selector);
      } else {
        HasSplit(all, cases[0], Put(tail, c), selector);
      }
    }
  }

  lemma HasSplit(all: seq<Case>, head: Case, tail: seq<Case>, selector: string)
    requires all == [head] + tail
    ensures Has(all, selector) <==> head.selector == selector || Has(tail, selector)
  {
    assert all[0] == head;
    assert forall i :: 0 <= i < |tail| ==> all[i + 1] == tail[i];
    assert forall i :: 0 < i < |all| ==> all[i] == tail[i - 1];
  }

  lemma {:induction false} ObjectHas(arms: seq<Arm>, cases: seq<Case>, selector: string)
    ensures Has(Object(arms, cases), selector)
       <==> Has(cases, selector) || exists i :: 0 <= i < |arms| && arms[i].selector == selector
    decreases |arms|
  {
    if arms != [] {
      ObjectHas(arms[1..], Put(cases, CaseOf(arms[0])), selector);
      PutHas(cases, CaseOf(arms[0]), selector);
      assert forall i :: 0 < i < |arms| ==> arms[i] == arms[1..][i - 1];
      assert forall i :: 0 <= i < |arms[1..]| ==> arms[1..][i] == arms[i + 1];
    }
  }

  lemma FirstQuote(run: string, rest: string)
    requires '\'' !in run
    ensures IndexOf("'" + (run + ("'" + rest)), '\'', 1) == Some(|run| + 1)
  {
    var s := "'" + (run + ("'" + rest));
    assert s[|run| + 1] == '\'';
    forall j | 1 <= j < |run| + 1
      ensures s[j] != '\''
    {
      assert s[j] == run[j - 1];
    }
    IndexIs(s, '\'', 1, |run| + 1);
  }

  lemma ReadRun(run: string, inPlural: bool, text: string, rest: string)
    requires run != "" && Special(run[0], inPlural) && '\'' !in run
    ensures ReadQuote("'" + (run + ("'" + rest)), inPlural, text) == Ok((text + run, rest))
  {
    var s := "'" + (run + ("'" + rest));
    assert s[1] == run[0];
    FirstQuote(run, rest);
    Assoc("'", run, "'" + rest);
    Assoc("'" + run, "'", rest);
    Middle("'", run, "'" + rest);
    Middle("'" + run, "'", rest);
  }

  /** A piece of text is added to the text read so far. */
  lemma ReadLiteral(p: Piece, inPlural: bool, nested: bool, text: string, rest: string)
    requires Literal(p).Some? && FitsPiece(p, inPlural, if rest == "" then None else Some(rest[0]))
    ensures ParseNodes(SpellPiece(p, rest), inPlural, nested, text) == ParseNodes(rest, inPlural, nested, text + Literal(p).value)
  {
    var s := SpellPiece(p, rest);
    match p
    case Plain(c) =>
      assert s[..1] == [c] && s[1..] == rest;
    case Doubled =>
      assert s[2..] == rest;
    case Quoted(run) =>
      ReadRun(run, inPlural, text, rest);
    case Lone =>
      assert s[..1] == "'" && s[1..] == rest;
  }

  lemma ReadBracedNode(s: string, inPlural: bool, nested: bool, text: string, node: Node, rest: string)
    requires s != "" && s[0] == '{' && ParseArgument(s[1..]) == Ok((node, rest))
    ensures ParseNodes(s, inPlural, nested, text) == Then(Run(text) + [node], ParseNodes(rest, inPlural, nested, ""))
  {
  }

  /** The other pieces are nodes. */
  lemma {:induction false} ReadNode(p: Piece, inPlural: bool, nested: bool, text: string, rest: string)
    requires Literal(p).None? && FitsPiece(p, inPlural, None)
    ensures ParseNodes(SpellPiece(p, rest), inPlural, nested, text)
         == Then(Run(text) + [NodeOf(p)], ParseNodes(rest, inPlural, nested, ""))
    decreases p
  {
    if p.Hash? {
      assert SpellPiece(p, rest)[1..] == rest;
    } else {
      ReadBraced(p, inPlural, rest);
      ReadBracedNode(SpellPiece(p, rest), inPlural, nested, text, NodeOf(p), rest);
    }
  }

  lemma {:induction false} ReadBraced(p: Piece, inPlural: bool, rest: string)
    requires (p.Hole? || p.NumberHole? || p.Choice?) && FitsPiece(p, inPlural, None)
    ensures SpellPiece(p, rest)[0] == '{' && ParseArgument(SpellPiece(p, rest)[1..]) == Ok((NodeOf(p), rest))
    decreases p, 0
  {
    var s := SpellPiece(p, rest);
    match p
    case Hole(name, gap1, gap2) =>
      ReadHole(name, gap1, gap2, rest);
      assert s[1..] == gap1 + (name + (gap2 + ("}" + rest)));
    case NumberHole(name, gap1, gap2, gap3, gap4) =>
      ReadTyped(name, gap1, gap2, gap3, "number", gap4, '}', rest);
      ReadNumberTyped(name, rest);
      assert s[1..] == gap1 + (name + (gap2 + ("," + (gap3 + ("number" + (gap4 + ("}" + rest)))))));
    case Choice(kind, name, gap1, gap2, gap3, gap4, gap5, arms) =>
      var text := SpellArms(arms, "}" + rest);
      ReadTyped(name, gap1, gap2, gap3, Keyword(kind), gap4, ',', gap5 + text);
      ReadArms(arms, kind.Plural?, [], rest);
      ArmsStart(arms, kind.Plural?, rest);
      ObjectHas(arms, [], "other");
      ReadBranchTyped(kind, name, gap5, text, Object(arms, []), rest);
      assert s[1..] == gap1 + (name + (gap2 + ("," + (gap3 + (Keyword(kind) + (gap4 + ("," + (gap5 + text))))))));
  }

  lemma {:induction false} SpellStarts(pieces: seq<Piece>, rest: string, next: Option<char>)
    requires next == if rest == "" then None else Some(rest[0])
    ensures FirstOf(pieces, next) == if Spell(pieces, rest) == "" then None else Some(Spell(pieces, rest)[0])
  {
  }

  /** Reading the text of pieces gives their meaning, in any context and in front of any rest they fit. */
  lemma {:induction false} ReadPieces(pieces: seq<Piece>, inPlural: bool, nested: bool, text: string, rest: string)
    requires Fits(pieces, inPlural, if rest == "" then None else Some(rest[0]))
    requires rest == "" || (nested && rest[0] == '}')
    ensures ParseNodes(Spell(pieces, rest), inPlural, nested, text) == Ok((Meaning(pieces, text), rest))
    decreases pieces
  {
    if pieces != [] {
      var p, more := pieces[0], Spell(pieces[1..], rest);
      SpellStarts(pieces[1..], rest, if rest == "" then None else Some(rest[0]));
      if Literal(p).Some? {
        ReadLiteral(p, inPlural, nested, text, more);
        ReadPieces(pieces[1..], inPlural, nested, text + Literal(p).value, rest);
      } else {
        ReadNode(p, inPlural, nested, text, more);
        ReadPieces(pieces[1..], inPlural, nested, "", rest);
      }
    }
  }

  // ----- whatever is read is a sentence -----

  function FirstChar(s: string): Option<char> {
    if s == "" then None else Some(s[0])
  }

  /** A piece in front of others. */
  lemma OnePieceMore(p: Piece, tail: seq<Piece>, inPlural: bool, text: string, more: string, rest: string)
    returns (pieces: seq<Piece>)
    requires Spell(tail, rest) == more && FitsPiece(p, inPlural, FirstChar(more)) && Fits(tail, inPlural, FirstChar(rest))
    ensures pieces == [p] + tail && Spell(pieces, rest) == SpellPiece(p, more) && Fits(pieces, inPlural, FirstChar(rest))
    ensures Meaning(pieces, text) == if Literal(p).Some? then Meaning(tail, text + Literal(p).value)
                                     else Run(text) + [NodeOf(p)] + Meaning(tail, "")
  {
    pieces := [p] + tail;
    assert pieces[0] == p && pieces[1..] == tail;
    SpellStarts(tail, rest, FirstChar(rest));
  }

  lemma DeriveQuote(s: string, inPlural: bool, text: string, more: string, rest: string) returns (p: Piece)
    requires s != "" && s[0] == '\'' && ReadQuote(s, inPlural, text) == Ok((more, rest))
    ensures Literal(p).Some? && more == text + Literal(p).value
    ensures SpellPiece(p, rest) == s && FitsPiece(p, inPlural, FirstChar(rest))
  {
    if |s| > 1 && s[1] == '\'' {
      p := Doubled;
      assert s == "''" + s[2..];
    } else if |s| > 1 && IsSyntax(s[1], inPlural) {
      p := DeriveRun(s, inPlural, text, more, rest);
    } else {
      p := Lone;
      assert s == "'" + s[1..];
    }
  }

  lemma DeriveRun(s: string, inPlural: bool, text: string, more: string, rest: string) returns (p: Piece)
    requires |s| > 1 && s[0] == '\'' && s[1] != '\'' && IsSyntax(s[1], inPlural)
    requires ReadQuote(s, inPlural, text) == Ok((more, rest))
    ensures p.Quoted? && more == text + p.run && SpellPiece(p, rest) == s && FitsPiece(p, inPlural, FirstChar(rest))
  {
    var close := IndexOf(s, '\'', 1).value;
    var run := s[1..close];
    p := Quoted(run);
    assert run[0] == s[1];
    OneMore(s, close);
    assert s == s[..close] + ("'" + s[close + 1..]);
    assert s[..close] == "'" + run;
    Assoc("'", run, "'" + s[close + 1..]);
  }

  lemma {:induction false} DerivePieces(s: string, inPlural: bool, nested: bool, text: string, nodes: seq<Node>, rest: string)
    returns (pieces: seq<Piece>)
    requires ParseNodes(s, inPlural, nested, text) == Ok((nodes, rest))
    ensures Spell(pieces, rest) == s && Fits(pieces, inPlural, FirstChar(rest)) && Meaning(pieces, text) == nodes
    ensures rest == "" || (nested && rest[0] == '}')
    decreases |s|, 2
  {
    if s == "" || s[0] == '}' {
      return [];
    }
    var p, more, tail;
    if s[0] == '\'' {
      var read := ReadQuote(s, inPlural, text).value;
      more := read.1;
      p := DeriveQuote(s, inPlural, text, read.0, more);
      tail := DerivePieces(more, inPlural, nested, read.0, nodes, rest);
    } else if (s[0] == '#' && inPlural) || s[0] == '{' {
      p, more, tail := DeriveNode(s, inPlural, nested, text, nodes, rest);
    } else {
      p, more := Plain(s[0]), s[1..];
      assert s == [s[0]] + more && s[..1] == [s[0]];
      tail := DerivePieces(more, inPlural, nested, text + [s[0]], nodes, rest);
    }
    pieces := OnePieceMore(p, tail, inPlural, text, more, rest);
  }

  lemma {:induction false} DeriveNode(s: string, inPlural: bool, nested: bool, text: string, nodes: seq<Node>, rest: string)
    returns (p: Piece, more: string, tail: seq<Piece>)
    requires s != "" && ((s[0] == '#' && inPlural) || s[0] == '{')
    requires ParseNodes(s, inPlural, nested, text) == Ok((nodes, rest))
    ensures Literal(p).None? && SpellPiece(p, more) == s && FitsPiece(p, inPlural, FirstChar(more))
    ensures Spell(tail, rest) == more && Fits(tail, inPlural, FirstChar(rest))
    ensures nodes == Run(text) + [NodeOf(p)] + Meaning(tail, "")
    ensures rest == "" || (nested && rest[0] == '}')
    decreases |s|, 1
  {
    if s[0] == '#' && inPlural {
      p, more := Hash, s[1..];
      assert s == "#" + more;
    } else {
      var read := ParseArgument(s[1..]).value;
      more := read.1;
      p := DeriveBraced(s[1..], read.0, more);
      assert s == "{" + s[1..];
      FitsAnywhere(p, inPlural, FirstChar(more));
    }
    var later := ParseNodes(more, inPlural, nested, "").value;
    tail := DerivePieces(more, inPlural, nested, "", later.0, rest);
  }

  predicate Braced(p: Piece) {
    p.Hole? || p.NumberHole? || p.Choice?
  }

  lemma FitsAnywhere(p: Piece, inPlural: bool, next: Option<char>)
    requires Braced(p) && FitsPiece(p, false, None)
    ensures FitsPiece(p, inPlural, next)
  {
  }

  lemma DeriveName(s: string) returns (name: string, gap1: string, gap2: string, s1: string)
    requires Word(s).Ok?
    ensures Name(name) && Gap(gap1) && Gap(gap2) && s == gap1 + (name + (gap2 + s1))
    ensures name == Word(s).value.0 && s1 == SkipSpace(Word(s).value.1)
  {
    var afterName;
    name, afterName := Word(s).value.0, Word(s).value.1;
    gap1 := SplitName(s, name, afterName);
    gap2 := SplitGap(afterName);
    s1 := SkipSpace(afterName);
  }

  lemma {:induction false} DeriveBraced(s: string, node: Node, rest: string) returns (p: Piece)
    requires ParseArgument(s) == Ok((node, rest))
    ensures Braced(p) && FitsPiece(p, false, None) && SpellPiece(p, rest) == "{" + s && NodeOf(p) == node
    decreases |s|, 0
  {
    var name, gap1, gap2, s1 := DeriveName(s);
    if s1 != "" && s1[0] == '}' {
      p := HoleMade(name, gap1, gap2, s1, rest);
    } else {
      var s2 := CommaRead(s, name, s1, node, rest);
      p := DeriveTyped(name, gap1, gap2, s2, node, rest);
    }
  }

  lemma HoleMade(name: string, gap1: string, gap2: string, s1: string, rest: string) returns (p: Piece)
    requires Name(name) && Gap(gap1) && Gap(gap2) && s1 != "" && s1[0] == '}' && rest == s1[1..]
    ensures Braced(p) && FitsPiece(p, false, None) && NodeOf(p) == Arg(name, false)
    ensures SpellPiece(p, rest) == "{" + (gap1 + (name + (gap2 + s1)))
  {
    p := Hole(name, gap1, gap2);
    assert s1 == "}" + rest;
  }

  /** What follows a name that is not closed at once. */
  lemma CommaRead(s: string, name: string, s1: string, node: Node, rest: string) returns (s2: string)
    requires ParseArgument(s) == Ok((node, rest)) && Word(s).Ok?
    requires name == Word(s).value.0 && s1 == SkipSpace(Word(s).value.1) && !(s1 != "" && s1[0] == '}')
    ensures s1 == "," + s2 && AfterComma(name, s2) == Ok((node, rest)) && |s2| < |s|
  {
    s2 := Expect(s1, ',').value;
  }

  lemma {:induction false} DeriveTyped(name: string, gap1: string, gap2: string, s: string, node: Node, rest: string)
    returns (p: Piece)
    requires Name(name) && Gap(gap1) && Gap(gap2) && AfterComma(name, s) == Ok((node, rest))
    ensures Braced(p) && FitsPiece(p, false, None) && NodeOf(p) == node
    ensures SpellPiece(p, rest) == "{" + (gap1 + (name + (gap2 + ("," + s))))
    decreases |s|
  {
    var kind, gap3, gap4, s1 := DeriveName(s);
    if kind == "number" {
      NumberRead(name, s1, node, rest);
      p := NumberHole(name, gap1, gap2, gap3, gap4);
    } else {
      var k, gap5, arms := DeriveBranch(name, kind, s1, node, rest);
      p := Choice(k, name, gap1, gap2, gap3, gap4, gap5, arms);
    }
  }

  lemma NumberRead(name: string, s: string, node: Node, rest: string)
    requires ParseTyped(name, "number", s) == Ok((node, rest)) && (s == "" || !IsSpace(s[0]))
    ensures s == "}" + rest && node == Arg(name, true)
  {
  }

  lemma {:induction false} DeriveBranch(name: string, kind: string, s: string, node: Node, rest: string)
    returns (k: Kind, gap: string, arms: seq<Arm>)
    requires kind != "number" && ParseTyped(name, kind, s) == Ok((node, rest)) && (s == "" || !IsSpace(s[0]))
    ensures kind == Keyword(k) && Gap(gap) && FitsArms(arms, k.Plural?)
    ensures exists i :: 0 <= i < |arms| && arms[i].selector == "other"
    ensures s == "," + (gap + SpellArms(arms, "}" + rest)) && node == Branch(k, name, Object(arms, []))
    decreases |s|, 4
  {
    k := if kind == "plural" then Plural else Select;
    var s1 := Expect(s, ',').value;
    assert s == "," + s1;
    gap := SplitGap(s1);
    var text := SkipSpace(s1);
    var cases := ParseCases(text, k.Plural?, []).value.0;
    arms := DeriveArms(text, k.Plural?, [], cases, rest);
    ObjectHas(arms, [], "other");
  }

  lemma {:induction false} DeriveArms(s: string, inPlural: bool, cases: seq<Case>, all: seq<Case>, rest: string)
    returns (arms: seq<Arm>)
    requires ParseCases(s, inPlural, cases) == Ok((all, rest)) && (s == "" || !IsSpace(s[0]))
    ensures FitsArms(arms, inPlural) && SpellArms(arms, "}" + rest) == s && Object(arms, cases) == all
    decreases |s|, 3
  {
    if s != "" && s[0] == '}' {
      arms := [];
      assert s == "}" + rest;
    } else {
      var arm, body, more := DeriveArm(s, inPlural, cases, all, rest);
      var tail := DeriveArms(more, inPlural, Put(cases, Case(arm.selector, body)), all, rest);
      arms := [arm] + tail;
      assert arms[0] == arm && arms[1..] == tail;
    }
  }

  lemma {:induction false} DeriveArm(s: string, inPlural: bool, cases: seq<Case>, all: seq<Case>, rest: string)
    returns (arm: Arm, body: seq<Node>, more: string)
    requires ParseCases(s, inPlural, cases) == Ok((all, rest)) && (s == "" || (!IsSpace(s[0]) && s[0] != '}'))
    ensures FitsArm(arm, inPlural) && SpellArm(arm, more) == s && Meaning(arm.body, "") == body && |more| < |s|
    ensures more != "" && !IsSpace(more[0])
    ensures ParseCases(more, inPlural, Put(cases, Case(arm.selector, body))) == Ok((all, rest))
    decreases |s|, 2
  {
    var selector, s1, s2, s3, s4;
    selector, s1, s2, body, s3, s4 := ArmRead(s, inPlural, cases, all, rest);
    var gap := SplitName(s, selector, s1);
    NoGap(gap, s, selector + s1);
    var gap1 := SplitExpected(s1, '{', s2);
    var pieces := DerivePieces(s2, inPlural, true, "", body, s3);
    var gap0 := SplitExpected(s3, '}', s4);
    NoGap(gap0, s3, "}" + s4);
    var gap2 := SplitGap(s4);
    more := SkipSpace(s4);
    arm := ArmMade(s, selector, s1, gap1, s2, pieces, inPlural, s3, s4, gap2, more);
  }

  lemma ArmRead(s: string, inPlural: bool, cases: seq<Case>, all: seq<Case>, rest: string)
    returns (selector: string, s1: string, s2: string, body: seq<Node>, s3: string, s4: string)
    requires ParseCases(s, inPlural, cases) == Ok((all, rest)) && (s == "" || s[0] != '}')
    ensures Word(s) == Ok((selector, s1)) && Expect(s1, '{') == Ok(s2)
    ensures ParseNodes(s2, inPlural, true, "") == Ok((body, s3)) && Expect(s3, '}') == Ok(s4) && |SkipSpace(s4)| < |s|
    ensures SkipSpace(s4) != "" && ParseCases(SkipSpace(s4), inPlural, Put(cases, Case(selector, body))) == Ok((all, rest))
  {
    var word := Word(s).value;
    selector, s1 := word.0, word.1;
    s2 := Expect(s1, '{').value;
    var nodes := ParseNodes(s2, inPlural, true, "").value;
    body, s3 := nodes.0, nodes.1;
    s4 := Expect(s3, '}').value;
  }

  lemma ArmMade(s: string, selector: string, s1: string, gap1: string, s2: string, pieces: seq<Piece>, inPlural: bool,
                s3: string, s4: string, gap2: string, more: string)
    returns (arm: Arm)
    requires Name(selector) && Gap(gap1) && Gap(gap2) && s == selector + s1 && s1 == gap1 + ("{" + s2)
    requires s2 == Spell(pieces, s3) && Fits(pieces, inPlural, FirstChar(s3)) && s3 == "}" + s4 && s4 == gap2 + more
    ensures arm == Arm(selector, gap1, pieces, gap2) && FitsArm(arm, inPlural) && SpellArm(arm, more) == s
  {
    arm := Arm(selector, gap1, pieces, gap2);
    assert s3[0] == '}';
  }

  // ----- the parser and the grammar -----

  /** `source` is a sentence of the grammar, and `nodes` is what it means. */
  ghost predicate Derives(source: string, nodes: seq<Node>) {
    exists pieces :: Fits(pieces, false, None) && Spell(pieces, "") == source && Meaning(pieces, "") == nodes
  }

  /** `parseMessage` reads exactly the sentences of the grammar, each to what it means. */
  lemma ParseIsGrammar(source: string, nodes: seq<Node>)
    ensures Parse(source) == Ok(nodes) <==> Derives(source, nodes)
  {
    if Parse(source) == Ok(nodes) {
      var pieces := DerivePieces(source, false, false, "", nodes, "");
    }
    if pieces :| Fits(pieces, false, None) && Spell(pieces, "") == source && Meaning(pieces, "") == nodes {
      ReadPieces(pieces, false, false, "", "");
    }
  }
}
