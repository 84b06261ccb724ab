/**
 * Which capture groups take part in every match of a pattern (`guaranteed` in `scan.rs`), and
 * which patterns a definitions file may therefore install.
 */
module ScanPatterns {
  import opened Outcome

  /** A byte of the haystack, written as the character of its value. */
  type Byte = char

  /** A pattern as the regex parser hands it over. */
  datatype Hir =
    | Empty
    | Literal(bytes: seq<Byte>)
    | Class(ranges: seq<(Byte, Byte)>)
    | Look(kind: nat)
    | Repetition(min: nat, max: Option<nat>, sub: Hir)
    | Capture(index: nat, sub: Hir)
    | Concat(parts: seq<Hir>)
    | Alternation(branches: seq<Hir>)

  // ----- the analysis -----

  function Guaranteed(h: Hir): set<nat>
    decreases h
  {
    match h
    case Capture(index, sub) => Guaranteed(sub) + {index}
    case Concat(parts) => GuaranteedSome(parts)
    case Alternation(branches) =>
      if branches == [] then {} else GuaranteedAll(Guaranteed(branches[0]), branches[1..])
    case Repetition(min, _, sub) => if min == 0 then {} else Guaranteed(sub)
    case _ => {}
  }

  /** The union over the parts of a concatenation. */
  function GuaranteedSome(parts: seq<Hir>): set<nat>
    decreases parts
  {
    if parts == [] then {} else Guaranteed(parts[0]) + GuaranteedSome(parts[1..])
  }

  /** `acc` cut down to what every further branch guarantees as well. */
  function GuaranteedAll(acc: set<nat>, branches: seq<Hir>): set<nat>
    decreases branches
  {
    if branches == [] then acc else GuaranteedAll(acc * Guaranteed(branches[0]), branches[1..])
  }

  // ----- what it means to match -----

  /** How one match came about: which branch was taken, and each turn of each repetition. */
  datatype Match =
    | One
    | Turns(turns: seq<Match>)
    | Group(index: nat, inner: Match)
    | All(parts: seq<Match>)
    | Branch(choice: nat, inner: Match)

  /** `LookHolds(kind, text, at)`: the assertion holds at this position of the haystack. */
  type Looks = (nat, seq<Byte>, nat) -> bool

  predicate InClass(ranges: seq<(Byte, Byte)>, b: Byte) {
    exists i :: 0 <= i < |ranges| && ranges[i].0 <= b <= ranges[i].1
  }

  /** `h` matches `text[from..to]` in the way `m` tells. */
  predicate Matches(h: Hir, m: Match, text: seq<Byte>, from: nat, to: nat, looks: Looks)
    decreases h, m
  {
    from <= to <= |text| &&
    match h
    case Empty => m == One && from == to
    case Literal(bytes) => m == One && text[from..to] == bytes
    case Class(ranges) => m == One && to == from + 1 && InClass(ranges, text[from])
    case Look(kind) => m == One && from == to && looks(kind, text, from)
    case Capture(index, sub) => m.Group? && m.index == index && Matches(sub, m.inner, text, from, to, looks)
    case Concat(parts) => m.All? && MatchesAll(parts, m.parts, text, from, to, looks)
    case Alternation(branches) =>
      m.Branch? && m.choice < |branches| && Matches(branches[m.choice], m.inner, text, from, to, looks)
    case Repetition(min, max, sub) =>
      m.Turns? && min <= |m.turns| && (max.Some? ==> |m.turns| <= max.value)
      && MatchesTurns(sub, m.turns, text, from, to, looks)
  }

  predicate MatchesAll(parts: seq<Hir>, ms: seq<Match>, text: seq<Byte>, from: nat, to: nat, looks: Looks)
    decreases parts, ms
  {
    from <= to <= |text| && |ms| == |parts| &&
    if parts == [] then from == to
    else exists mid :: from <= mid <= to && Matches(parts[0], ms[0], text, from, mid, looks)
           && MatchesAll(parts[1..], ms[1..], text, mid, to, looks)
  }

  predicate MatchesTurns(sub: Hir, ms: seq<Match>, text: seq<Byte>, from: nat, to: nat, looks: Looks)
    decreases sub, ms
  {
    from <= to <= |text| &&
    if ms == [] then from == to
    else exists mid :: from <= mid <= to && Matches(sub, ms[0], text, from, mid, looks)
           && MatchesTurns(sub, ms[1..], text, mid, to, looks)
  }

  /** The groups that took part in a match. */
  function Groups(m: Match): set<nat>
    decreases m
  {
    match m
    case One => {}
    case Turns(turns) => GroupsOf(turns)
    case Group(index, inner) => {index} + Groups(inner)
    case All(parts) => GroupsOf(parts)
    case Branch(_, inner) => Groups(inner)
  }

  function GroupsOf(ms: seq<Match>): set<nat>
    decreases ms
  {
    if ms == [] then {} else Groups(ms[0]) + GroupsOf(ms[1..])
  }

  // ----- the analysis accepts only what every match supplies -----

  lemma {:induction false} Soundness(h: Hir, m: Match, text: seq<Byte>, from: nat, to: nat, looks: Looks)
    requires Matches(h, m, text, from, to, looks)
    ensures Guaranteed(h) <= Groups(m)
    decreases h, m
  {
    match h {
      case Capture(_, sub) => Soundness(sub, m.inner, text, from, to, looks);
      case Concat(parts) => SoundnessAll(parts, m.parts, text, from, to, looks);
      case Alternation(branches) =>
        Soundness(branches[m.choice], m.inner, text, from, to, looks);
        GuaranteedByBranch(branches, m.choice);
      case Repetition(min, _, sub) =>
        if min > 0 {
          assert m.turns != [] && MatchesTurns(sub, m.turns, text, from, to, looks);
          var mid :| from <= mid <= to && Matches(sub, m.turns[0], text, from, mid, looks)
            && MatchesTurns(sub, m.turns[1..], text, mid, to, looks);
          Soundness(sub, m.turns[0], text, from, mid, looks);
        }
      case _ =>
    }
  }

  lemma {:induction false} SoundnessAll(parts: seq<Hir>, ms: seq<Match>, text: seq<Byte>, from: nat, to: nat, looks: Looks)
    requires MatchesAll(parts, ms, text, from, to, looks)
    ensures GuaranteedSome(parts) <= GroupsOf(ms)
    decreases parts, ms
  {
    if parts != [] {
      var mid :| from <= mid <= to && Matches(parts[0], ms[0], text, from, mid, looks)
        && MatchesAll(parts[1..], ms[1..], text, mid, to, looks);
      Soundness(parts[0], ms[0], text, from, mid, looks);
      SoundnessAll(parts[1..], ms[1..], text, mid, to, looks);
    }
  }

  lemma {:induction false} GuaranteedAllIs(acc: set<nat>, branches: seq<Hir>, index: nat)
    ensures index in GuaranteedAll(acc, branches)
       <==> index in acc && forall i :: 0 <= i < |branches| ==> index in Guaranteed(branches[i])
    decreases |branches|
  {
    if branches != [] {
      GuaranteedAllIs(acc * Guaranteed(branches[0]), branches[1..], index);
      var tail := branches[1..];
      assert forall i :: 0 <= i < |tail| ==> tail[i] == branches[i + 1];
      assert forall i :: 1 <= i < |branches| ==> branches[i] == tail[i - 1];
    }
  }

  /** An alternation guarantees what every branch guarantees. */
  lemma GuaranteedAlternation(branches: seq<Hir>, index: nat)
    requires branches != []
    ensures index in Guaranteed(Alternation(branches))
       <==> forall i :: 0 <= i < |branches| ==> index in Guaranteed(branches[i])
  {
    GuaranteedAllIs(Guaranteed(branches[0]), branches[1..], index);
    var tail := branches[1..];
    assert forall i :: 0 <= i < |tail| ==> tail[i] == branches[i + 1];
    assert forall i :: 1 <= i < |branches| ==> branches[i] == tail[i - 1];
  }

  lemma GuaranteedByBranch(branches: seq<Hir>, choice: nat)
    requires choice < |branches|
    ensures Guaranteed(Alternation(branches)) <= Guaranteed(branches[choice])
  {
    forall index | index in Guaranteed(Alternation(branches))
      ensures index in Guaranteed(branches[choice])
    {
      GuaranteedAlternation(branches, index);
    }
  }

  // ----- and nothing that every match supplies is missed -----

  /** No assertion, no empty class, no empty alternation, and no repetition that can never stop. */
  predicate Productive(h: Hir)
    decreases h
  {
    match h
    case Empty => true
    case Literal(_) => true
    case Class(ranges) => ranges != [] && ranges[0].0 <= ranges[0].1
    case Look(_) => false
    case Repetition(min, max, sub) => (max.Some? ==> min <= max.value) && Productive(sub)
    case Capture(_, sub) => Productive(sub)
    case Concat(parts) => ProductiveAll(parts)
    case Alternation(branches) => branches != [] && ProductiveAll(branches)
  }

  predicate ProductiveAll(hs: seq<Hir>)
    decreases hs
  {
    hs == [] || (Productive(hs[0]) && ProductiveAll(hs[1..]))
  }

  lemma {:induction false} ProductiveAt(hs: seq<Hir>, i: nat)
    requires ProductiveAll(hs) && i < |hs|
    ensures Productive(hs[i])
  {
    if i > 0 {
      ProductiveAt(hs[1..], i - 1);
    }
  }

  /** A match inside a longer text is a match there, where no assertion looks around. */
  lemma {:induction false} MatchesShift(h: Hir, m: Match, text: seq<Byte>, from: nat, to: nat, looks: Looks,
                                        before: seq<Byte>, after: seq<Byte>)
    requires Productive(h) && Matches(h, m, text, from, to, looks)
    ensures Matches(h, m, before + text + after, |before| + from, |before| + to, looks)
    decreases h, m
  {
    var wide, d := before + text + after, |before|;
    assert wide[d + from..d + to] == text[from..to];
    match h {
      case Class(_) => assert wide[d + from] == text[from];
      case Capture(_, sub) => MatchesShift(sub, m.inner, text, from, to, looks, before, after);
      case Concat(parts) => MatchesAllShift(parts, m.parts, text, from, to, looks, before, after);
      case Alternation(branches) =>
        ProductiveAt(branches, m.choice);
        MatchesShift(branches[m.choice], m.inner, text, from, to, looks, before, after);
      case Repetition(_, _, sub) => MatchesTurnsShift(sub, m.turns, text, from, to, looks, before, after);
      case _ =>
    }
  }

  lemma {:induction false} MatchesAllShift(parts: seq<Hir>, ms: seq<Match>, text: seq<Byte>, from: nat, to: nat, looks: Looks,
                                           before: seq<Byte>, after: seq<Byte>)
    requires ProductiveAll(parts) && MatchesAll(parts, ms, text, from, to, looks)
    ensures MatchesAll(parts, ms, before + text + after, |before| + from, |before| + to, looks)
    decreases parts, ms
  {
    if parts != [] {
      var mid :| from <= mid <= to && Matches(parts[0], ms[0], text, from, mid, looks)
        && MatchesAll(parts[1..], ms[1..], text, mid, to, looks);
      MatchesShift(parts[0], ms[0], text, from, mid, looks, before, after);
      MatchesAllShift(parts[1..], ms[1..], text, mid, to, looks, before, after);
      assert |before| + from <= |before| + mid <= |before| + to;
    }
  }

  lemma {:induction false} MatchesTurnsShift(sub: Hir, ms: seq<Match>, text: seq<Byte>, from: nat, to: nat, looks: Looks,
                                             before: seq<Byte>, after: seq<Byte>)
    requires Productive(sub) && MatchesTurns(sub, ms, text, from, to, looks)
    ensures MatchesTurns(sub, ms, before + text + after, |before| + from, |before| + to, looks)
    decreases sub, ms
  {
    if ms != [] {
      var mid :| from <= mid <= to && Matches(sub, ms[0], text, from, mid, looks)
        && MatchesTurns(sub, ms[1..], text, mid, to, looks);
      MatchesShift(sub, ms[0], text, from, mid, looks, before, after);
      MatchesTurnsShift(sub, ms[1..], text, mid, to, looks, before, after);
      assert |before| + from <= |before| + mid <= |before| + to;
    }
  }

  /** A whole text that `h` matches without group `index`, where the analysis does not promise it. */
  lemma {:induction false} MatchWithout(h: Hir, index: nat, looks: Looks) returns (m: Match, text: seq<Byte>)
    requires Productive(h) && index !in Guaranteed(h)
    ensures Matches(h, m, text, 0, |text|, looks) && index !in Groups(m)
    decreases h, 0
  {
    match h {
      case Empty => m, text := One, [];
      case Literal(bytes) =>
        m, text := One, bytes;
        assert text[0..|text|] == bytes;
      case Class(ranges) =>
        m, text := One, [ranges[0].0];
        assert InClass(ranges, text[0]);
      case Capture(i, sub) =>
        var inner;
        inner, text := MatchWithout(sub, index, looks);
        m := Group(i, inner);
      case Concat(parts) =>
        var ms;
        ms, text := MatchAllWithout(parts, index, looks);
        m := All(ms);
      case Alternation(branches) =>
        GuaranteedAlternation(branches, index);
        var i :| 0 <= i < |branches| && index !in Guaranteed(branches[i]);
        ProductiveAt(branches, i);
        var inner;
        inner, text := MatchWithout(branches[i], index, looks);
        m := Branch(i, inner);
      case Repetition(min, _, sub) =>
        if min == 0 {
          m, text := Turns([]), [];
        } else {
          var ms;
          ms, text := MatchTurnsWithout(sub, min, index, looks);
          m := Turns(ms);
        }
    }
  }

  lemma {:induction false} MatchAllWithout(parts: seq<Hir>, index: nat, looks: Looks)
    returns (ms: seq<Match>, text: seq<Byte>)
    requires ProductiveAll(parts) && index !in GuaranteedSome(parts)
    ensures MatchesAll(parts, ms, text, 0, |text|, looks) && index !in GroupsOf(ms)
    decreases parts, 0
  {
    if parts == [] {
      ms, text := [], [];
    } else {
      var m, first := MatchWithout(parts[0], index, looks);
      var rest, second := MatchAllWithout(parts[1..], index, looks);
      ms, text := [m] + rest, first + second;
      MatchesShift(parts[0], m, first, 0, |first|, looks, [], second);
      assert [] + first + second == text;
      MatchesAllShift(parts[1..], rest, second, 0, |second|, looks, first, []);
      assert first + second + [] == text;
      assert ms[1..] == rest;
      assert Matches(parts[0], ms[0], text, 0, |first|, looks);
    }
  }

  lemma {:induction false} MatchTurnsWithout(sub: Hir, n: nat, index: nat, looks: Looks)
    returns (ms: seq<Match>, text: seq<Byte>)
    requires Productive(sub) && index !in Guaranteed(sub)
    ensures |ms| == n && MatchesTurns(sub, ms, text, 0, |text|, looks) && index !in GroupsOf(ms)
    decreases sub, n + 1
  {
    if n == 0 {
      ms, text := [], [];
    } else {
      var m, first := MatchWithout(sub, index, looks);
      var rest, second := MatchTurnsWithout(sub, n - 1, index, looks);
      ms, text := [m] + rest, first + second;
      MatchesShift(sub, m, first, 0, |first|, looks, [], second);
      assert [] + first + second == text;
      MatchesTurnsShift(sub, rest, second, 0, |second|, looks, first, []);
      assert first + second + [] == text;
      assert ms[1..] == rest;
      assert Matches(sub, ms[0], text, 0, |first|, looks);
    }
  }

  /** Group `index` takes part in every match of `h`. */
  ghost predicate AlwaysTakesPart(h: Hir, index: nat, looks: Looks) {
    forall m, text, from, to :: Matches(h, m, text, from, to, looks) ==> index in Groups(m)
  }

  /** On productive patterns the analysis is exact. */
  lemma GuaranteedIsExact(h: Hir, index: nat, looks: Looks)
    requires Productive(h)
    ensures index in Guaranteed(h) <==> AlwaysTakesPart(h, index, looks)
  {
    if index in Guaranteed(h) {
      forall m, text, from, to | Matches(h, m, text, from, to, looks)
        ensures index in Groups(m)
      {
        Soundness(h, m, text, from, to, looks);
      }
    } else {
      var m, text := MatchWithout(h, index, looks);
    }
  }

  /** Elsewhere it may refuse too much: a branch that cannot match still counts as a branch. */
  lemma RefusesTooMuch(looks: Looks)
    ensures var h := Alternation([Capture(1, Empty), Class([])]);
            AlwaysTakesPart(h, 1, looks) && 1 !in Guaranteed(h)
  {
    var branches := [Capture(1, Empty), Class([])];
    var h := Alternation(branches);
    GuaranteedAlternation(branches, 1);
    assert 1 !in Guaranteed(branches[1]);
    forall m, text, from, to | Matches(h, m, text, from, to, looks)
      ensures 1 in Groups(m)
    {
      assert Matches(branches[m.choice], m.inner, text, from, to, looks);
      assert m.choice == 0;
      assert m.inner.Group? && m.inner.index == 1;
    }
  }

  // ----- patterns from a definitions file -----

  const MAX_PATTERN_LEN := 512

  /** A supplied pattern: its length, its number of groups if it compiles, and its parse. */
  datatype Raw = Raw(length: nat, groups: Option<nat>, parsed: Option<Hir>)

  datatype Rejection = TooLong | DoesNotCompile | TooFewGroups(have: nat) | NotGuaranteed

  function Required(groups: nat): set<nat> {
    if groups == 0 then {} else Required(groups - 1) + {groups}
  }

  /** The pattern to install for one field, and why a supplied one was refused. */
  function BuildOne(supplied: Option<Raw>, groups: nat, fallback: Hir): (Hir, Option<Rejection>) {
    if supplied.None? || supplied.value.length == 0 then (fallback, None)
    else
      var raw := supplied.value;
      if raw.length > MAX_PATTERN_LEN then (fallback, Some(TooLong))
      else if raw.groups.None? then (fallback, Some(DoesNotCompile))
      else if raw.groups.value < groups then (fallback, Some(TooFewGroups(raw.groups.value)))
      else if raw.parsed.None? || !(Required(groups) <= Guaranteed(raw.parsed.value)) then
        (fallback, Some(NotGuaranteed))
      else (raw.parsed.value, None)
  }

  /** `accountId=([0-9a-fA-F]{24})&nonce=([0-9]{6,})` */
  function DefaultCred(): Hir {
    Concat([Literal("accountId="),
            Capture(1, Repetition(24, Some(24), Class([('0', '9'), ('A', 'F'), ('a', 'f')]))),
            Literal("&nonce="),
            Capture(2, Repetition(6, None, Class([('0', '9')])))])
  }

  /** `"BuildLabel":"([0-9.]+)/[A-Za-z0-9]+` */
  function DefaultBuild(): Hir {
    Concat([Literal("\"BuildLabel\":\""),
            Capture(1, Repetition(1, None, Class([('.', '.'), ('0', '9')]))),
            Literal("/"),
            Repetition(1, None, Class([('0', '9'), ('A', 'Z'), ('a', 'z')]))])
  }

  /** `&ct=([A-Z]{2,4})\b` */
  function DefaultCt(): Hir {
    Concat([Literal("&ct="), Capture(1, Repetition(2, Some(4), Class([('A', 'Z')]))), Look(0)])
  }

  datatype Patterns = Patterns(cred: Hir, build: Hir, ct: Hir)

  datatype Definitions = Definitions(cred: Option<Raw>, build: Option<Raw>, ct: Option<Raw>)

  function PatternsFrom(d: Definitions): Patterns {
    Patterns(BuildOne(d.cred, 2, DefaultCred()).0, BuildOne(d.build, 1, DefaultBuild()).0,
             BuildOne(d.ct, 1, DefaultCt()).0)
  }

  lemma SecondPart(a: Hir, b: Hir, rest: seq<Hir>)
    ensures GuaranteedSome([a, b] + rest) == Guaranteed(a) + Guaranteed(b) + GuaranteedSome(rest)
  {
    var all := [a, b] + rest;
    assert all[1..] == [b] + rest;
    assert all[1..][1..] == rest;
  }

  lemma DefaultsGuarantee()
    ensures Required(2) <= Guaranteed(DefaultCred())
    ensures Required(1) <= Guaranteed(DefaultBuild())
    ensures Required(1) <= Guaranteed(DefaultCt())
  {
    SecondGuarantees(DefaultCred());
    FourthGuarantees(DefaultCred());
    SecondGuarantees(DefaultBuild());
    SecondGuarantees(DefaultCt());
  }

  lemma SecondGuarantees(h: Hir)
    requires h.Concat? && |h.parts| >= 2 && h.parts[1].Capture?
    ensures h.parts[1].index in Guaranteed(h)
  {
    var p := h.parts;
    assert p == [p[0], p[1]] + p[2..];
    SecondPart(p[0], p[1], p[2..]);
  }

  lemma FourthGuarantees(h: Hir)
    requires h.Concat? && |h.parts| == 4 && h.parts[3].Capture?
    ensures h.parts[3].index in Guaranteed(h)
  {
    var p := h.parts;
    assert p == [p[0], p[1]] + p[2..] && p[2..] == [p[2], p[3]] + [];
    SecondPart(p[0], p[1], p[2..]);
    SecondPart(p[2], p[3], []);
  }

  /** A field's installed pattern is the built-in one or one whose groups are guaranteed. */
  lemma BuiltSupplies(supplied: Option<Raw>, groups: nat, fallback: Hir, m: Match, text: seq<Byte>,
                      from: nat, to: nat, looks: Looks)
    requires Required(groups) <= Guaranteed(fallback)
    requires Matches(BuildOne(supplied, groups, fallback).0, m, text, from, to, looks)
    ensures Required(groups) <= Groups(m)
  {
    Soundness(BuildOne(supplied, groups, fallback).0, m, text, from, to, looks);
  }

  /** Whatever a definitions file says, no installed pattern can match without its groups. */
  lemma InstalledPatternsSupplyGroups(d: Definitions, m: Match, text: seq<Byte>, from: nat, to: nat, looks: Looks)
    ensures Matches(PatternsFrom(d).cred, m, text, from, to, looks) ==> Required(2) <= Groups(m)
    ensures Matches(PatternsFrom(d).build, m, text, from, to, looks) ==> Required(1) <= Groups(m)
    ensures Matches(PatternsFrom(d).ct, m, text, from, to, looks) ==> Required(1) <= Groups(m)
  {
    DefaultsGuarantee();
    SuppliesIfMatched(d.cred, 2, DefaultCred(), m, text, from, to, looks);
    SuppliesIfMatched(d.build, 1, DefaultBuild(), m, text, from, to, looks);
    SuppliesIfMatched(d.ct, 1, DefaultCt(), m, text, from, to, looks);
  }

  lemma SuppliesIfMatched(supplied: Option<Raw>, groups: nat, fallback: Hir, m: Match, text: seq<Byte>,
                          from: nat, to: nat, looks: Looks)
    requires Required(groups) <= Guaranteed(fallback)
    ensures Matches(BuildOne(supplied, groups, fallback).0, m, text, from, to, looks) ==> Required(groups) <= Groups(m)
  {
    if Matches(BuildOne(supplied, groups, fallback).0, m, text, from, to, looks) {
      BuiltSupplies(supplied, groups, fallback, m, text, from, to, looks);
    }
  }

  lemma {:induction false} RequiredIs(groups: nat, index: nat)
    ensures index in Required(groups) <==> 1 <= index <= groups
  {
    if groups > 0 {
      RequiredIs(groups - 1, index);
    }
  }

  /**
   * A productive pattern that passes the earlier checks is refused exactly when one of the
   * required groups is absent from some match.
   */
  lemma RefusedExactlyWhenOptional(raw: Raw, groups: nat, fallback: Hir, looks: Looks)
    requires 0 < raw.length <= MAX_PATTERN_LEN && raw.groups.Some? && raw.groups.value >= groups
    requires raw.parsed.Some? && Productive(raw.parsed.value)
    ensures BuildOne(Some(raw), groups, fallback) == (raw.parsed.value, None)
       <==> forall index :: 1 <= index <= groups ==> AlwaysTakesPart(raw.parsed.value, index, looks)
    ensures BuildOne(Some(raw), groups, fallback).1 in {None, Some(NotGuaranteed)}
  {
    var h := raw.parsed.value;
    forall index
      ensures index in Required(groups) <==> 1 <= index <= groups
      ensures index >= 0 ==> (index in Guaranteed(h) <==> AlwaysTakesPart(h, index, looks))
    {
      if index >= 0 {
        RequiredIs(groups, index);
        GuaranteedIsExact(h, index, looks);
      }
    }
  }

  /** A supplied pattern that passes every check: of 1 to 512 bytes, with its groups, each of them promised. */
  predicate Usable(supplied: Option<Raw>, groups: nat, h: Hir) {
    && supplied.Some? && 1 <= supplied.value.length <= 512
    && supplied.value.groups.Some? && groups <= supplied.value.groups.value
    && supplied.value.parsed == Some(h) && forall index :: 1 <= index <= groups ==> index in Guaranteed(h)
  }

  lemma BuiltExactly(supplied: Option<Raw>, groups: nat, fallback: Hir, h: Hir)
    ensures Usable(supplied, groups, h) ==> BuildOne(supplied, groups, fallback) == (h, None)
    ensures BuildOne(supplied, groups, fallback).0 == h ==> h == fallback || Usable(supplied, groups, h)
    ensures BuildOne(supplied, groups, fallback).1 == None && supplied.Some? && supplied.value.length > 0 ==>
              Usable(supplied, groups, BuildOne(supplied, groups, fallback).0)
    ensures BuildOne(supplied, groups, fallback).1.Some? ==> BuildOne(supplied, groups, fallback).0 == fallback
  {
    forall index
      ensures index in Required(groups) <==> 1 <= index <= groups
    {
      if index >= 0 {
        RequiredIs(groups, index);
      }
    }
  }

  /** Each field has the pattern supplied for it if that is usable, and the built-in one of the field if none is. */
  lemma InstalledExactly(d: Definitions)
    ensures var p := PatternsFrom(d);
            && (forall h :: Usable(d.cred, 2, h) ==> p.cred == h)
            && (forall h :: Usable(d.build, 1, h) ==> p.build == h)
            && (forall h :: Usable(d.ct, 1, h) ==> p.ct == h)
            && (Usable(d.cred, 2, p.cred) || p.cred == DefaultCred())
            && (Usable(d.build, 1, p.build) || p.build == DefaultBuild())
            && (Usable(d.ct, 1, p.ct) || p.ct == DefaultCt())
  {
    forall h
      ensures Usable(d.cred, 2, h) ==> PatternsFrom(d).cred == h
      ensures Usable(d.build, 1, h) ==> PatternsFrom(d).build == h
      ensures Usable(d.ct, 1, h) ==> PatternsFrom(d).ct == h
    {
      BuiltExactly(d.cred, 2, DefaultCred(), h);
      BuiltExactly(d.build, 1, DefaultBuild(), h);
      BuiltExactly(d.ct, 1, DefaultCt(), h);
    }
    BuiltExactly(d.cred, 2, DefaultCred(), PatternsFrom(d).cred);
    BuiltExactly(d.build, 1, DefaultBuild(), PatternsFrom(d).build);
    BuiltExactly(d.ct, 1, DefaultCt(), PatternsFrom(d).ct);
  }

  /** The reason a supplied pattern is refused for is the first that holds. */
  lemma RejectedFor(supplied: Option<Raw>, groups: nat, fallback: Hir)
    ensures var rejection := BuildOne(supplied, groups, fallback).1;
            && (rejection.Some? ==> supplied.Some? && supplied.value.length > 0)
            && (rejection == Some(TooLong) <==> supplied.Some? && supplied.value.length > 512)
            && (rejection == Some(DoesNotCompile) ==> supplied.value.length <= 512 && supplied.value.groups.None?)
            && (rejection.Some? && rejection.value.TooFewGroups? ==>
                  supplied.value.length <= 512 && supplied.value.groups == Some(rejection.value.have) && rejection.value.have < groups)
            && (rejection == Some(NotGuaranteed) ==>
                  supplied.value.length <= 512 && supplied.value.groups.Some? && supplied.value.groups.value >= groups)
  {
  }

  // ----- what the built-in patterns find -----

  lemma {:induction false} TurnsOfClass(ranges: seq<(Byte, Byte)>, ms: seq<Match>, text: seq<Byte>, from: nat, to: nat, looks: Looks)
    requires MatchesTurns(Class(ranges), ms, text, from, to, looks)
    ensures to == from + |ms| <= |text| && forall i :: from <= i < to ==> InClass(ranges, text[i])
    decreases ms
  {
    if ms != [] {
      var mid :| from <= mid <= to && Matches(Class(ranges), ms[0], text, from, mid, looks)
        && MatchesTurns(Class(ranges), ms[1..], text, mid, to, looks);
      TurnsOfClass(ranges, ms[1..], text, mid, to, looks);
    }
  }

  lemma FirstPart(parts: seq<Hir>, ms: seq<Match>, text: seq<Byte>, from: nat, to: nat, looks: Looks, rest: seq<Hir>)
    returns (mid: nat)
    requires parts != [] && parts[1..] == rest && MatchesAll(parts, ms, text, from, to, looks)
    ensures ms != [] && from <= mid <= to <= |text|
    ensures Matches(parts[0], ms[0], text, from, mid, looks) && MatchesAll(rest, ms[1..], text, mid, to, looks)
  {
    mid :| from <= mid <= to && Matches(parts[0], ms[0], text, from, mid, looks)
      && MatchesAll(parts[1..], ms[1..], text, mid, to, looks);
  }

  /** A run of at least `min`, at most `max` bytes of a class, captured. */
  lemma CapturedRun(index: nat, min: nat, max: Option<nat>, ranges: seq<(Byte, Byte)>, m: Match, text: seq<Byte>,
                    from: nat, to: nat, looks: Looks)
    requires Matches(Capture(index, Repetition(min, max, Class(ranges))), m, text, from, to, looks)
    ensures from + min <= to <= |text| && (max.Some? ==> to <= from + max.value)
    ensures forall i :: from <= i < to ==> InClass(ranges, text[i])
    ensures m.Group? && m.index == index
  {
    TurnsOfClass(ranges, m.inner.turns, text, from, to, looks);
  }

  predicate Digit(b: Byte) { '0' <= b <= '9' }

  predicate HexDigit(b: Byte) { Digit(b) || 'a' <= b <= 'f' || 'A' <= b <= 'F' }

  /** The bytes where group `m`, from `a` to `b`, was captured are those of a credential with its account id and nonce. */
  predicate IsCredential(text: seq<Byte>, from: nat, to: nat, a: nat, b: nat, c: nat) {
    && from + 10 == a && b == a + 24 && c == b + 7 && c + 6 <= to <= |text|
    && text[from..a] == "accountId=" && text[b..c] == "&nonce="
    && (forall i :: a <= i < b ==> HexDigit(text[i])) && (forall i :: c <= i < to ==> Digit(text[i]))
  }

  /** The built-in credential pattern: the name, 24 hexadecimal digits captured first, the name, six or more digits captured second. */
  lemma CredentialMatch(m: Match, text: seq<Byte>, from: nat, to: nat, looks: Looks) returns (a: nat, b: nat, c: nat)
    requires Matches(DefaultCred(), m, text, from, to, looks)
    ensures IsCredential(text, from, to, a, b, c)
    ensures m.All? && |m.parts| == 4
    ensures m.parts[1].Group? && m.parts[1].index == 1 && m.parts[3].Group? && m.parts[3].index == 2
  {
    var hex, digits := [('0', '9'), ('A', 'F'), ('a', 'f')], [('0', '9')];
    var p1, p2 := Capture(1, Repetition(24, Some(24), Class(hex))), Capture(2, Repetition(6, None, Class(digits)));
    var name, nonce := Literal("accountId="), Literal("&nonce=");
    a := FirstPart([name, p1, nonce, p2], m.parts, text, from, to, looks, [p1, nonce, p2]);
    b := FirstPart([p1, nonce, p2], m.parts[1..], text, a, to, looks, [nonce, p2]);
    c := FirstPart([nonce, p2], m.parts[1..][1..], text, b, to, looks, [p2]);
    var d := FirstPart([p2], m.parts[1..][1..][1..], text, c, to, looks, []);
    CapturedRun(1, 24, Some(24), hex, m.parts[1], text, a, b, looks);
    CapturedRun(2, 6, None, digits, m.parts[3], text, c, d, looks);
    assert |text[from..a]| == a - from && |text[b..c]| == c - b;
  }

  predicate IsBuild(text: seq<Byte>, from: nat, to: nat, a: nat, b: nat) {
    && from + 14 == a && a < b && b + 1 < to <= |text|
    && text[from..a] == "\"BuildLabel\":\"" && text[b] == '/'
    && (forall i :: a <= i < b ==> Digit(text[i]) || text[i] == '.')
    && (forall i :: b < i < to ==> Digit(text[i]) || 'a' <= text[i] <= 'z' || 'A' <= text[i] <= 'Z')
  }

  /** The built-in build pattern: the name, digits and dots captured, a slash, letters and digits. */
  lemma BuildMatch(m: Match, text: seq<Byte>, from: nat, to: nat, looks: Looks) returns (a: nat, b: nat)
    requires Matches(DefaultBuild(), m, text, from, to, looks)
    ensures IsBuild(text, from, to, a, b)
    ensures m.All? && |m.parts| == 4 && m.parts[1].Group? && m.parts[1].index == 1
  {
    var dotted, letters := [('.', '.'), ('0', '9')], [('0', '9'), ('A', 'Z'), ('a', 'z')];
    var p1, tail := Capture(1, Repetition(1, None, Class(dotted))), Repetition(1, None, Class(letters));
    var name, slash := Literal("\"BuildLabel\":\""), Literal("/");
    a := FirstPart([name, p1, slash, tail], m.parts, text, from, to, looks, [p1, slash, tail]);
    b := FirstPart([p1, slash, tail], m.parts[1..], text, a, to, looks, [slash, tail]);
    var c := FirstPart([slash, tail], m.parts[1..][1..], text, b, to, looks, [tail]);
    var d := FirstPart([tail], m.parts[1..][1..][1..], text, c, to, looks, []);
    CapturedRun(1, 1, None, dotted, m.parts[1], text, a, b, looks);
    TurnsOfClass(letters, m.parts[3].turns, text, c, d, looks);
    assert |text[from..a]| == a - from && |text[b..c]| == c - b && text[b..c][0] == text[b];
  }

  predicate IsContent(text: seq<Byte>, from: nat, to: nat, a: nat) {
    && from + 4 == a && a + 2 <= to <= a + 4 && to <= |text|
    && text[from..a] == "&ct=" && (forall i :: a <= i < to ==> 'A' <= text[i] <= 'Z')
  }

  /** The built-in content pattern: the name, two to four capitals captured, and the assertion that the word ends there. */
  lemma ContentMatch(m: Match, text: seq<Byte>, from: nat, to: nat, looks: Looks) returns (a: nat)
    requires Matches(DefaultCt(), m, text, from, to, looks)
    ensures IsContent(text, from, to, a) && looks(0, text, to)
    ensures m.All? && |m.parts| == 3 && m.parts[1].Group? && m.parts[1].index == 1
  {
    var capitals := [('A', 'Z')];
    var p1, name, end := Capture(1, Repetition(2, Some(4), Class(capitals))), Literal("&ct="), Look(0);
    a := FirstPart([name, p1, end], m.parts, text, from, to, looks, [p1, end]);
    var b := FirstPart([p1, end], m.parts[1..], text, a, to, looks, [end]);
    var c := FirstPart([end], m.parts[1..][1..], text, b, to, looks, []);
    CapturedRun(1, 2, Some(4), capitals, m.parts[1], text, a, b, looks);
    assert |text[from..a]| == a - from;
  }
}
