/** What the judging of a candidate means, in terms of the request alone. */
module TradeSessionRows {
  import opened Outcome
  import opened TradeSession
  import opened TradeSessionProofs
  import opened TradeSessionPlan
  import opened TradeSessionOrder

  // ----- names and numbers -----

  lemma EndsWithMeans(s: string, suffix: string)
    ensures EndsWith(s, suffix) <==> exists front: string :: s == front + suffix
  {
    if EndsWith(s, suffix) {
      assert s == s[..|s| - |suffix|] + suffix;
    }
    if front: string :| s == front + suffix {
      assert s[|s| - |suffix|..] == suffix;
    }
  }

  ghost predicate Holds(s: string, word: string) {
    exists front: string, back: string :: s == front + word + back
  }

  lemma {:induction false} ContainsMeans(s: string, word: string)
    ensures Contains(s, word) <==> Holds(s, word)
  {
    if word <= s {
      assert s == "" + word + s[|word|..];
    } else if s != "" {
      ContainsMeans(s[1..], word);
      if Contains(s[1..], word) {
        var front: string, back: string :| s[1..] == front + word + back;
        assert s == (s[..1] + front) + word + back;
      }
      if Holds(s, word) {
        HoldsBehind(s, word);
      }
    }
  }

  lemma HoldsBehind(s: string, word: string)
    requires Holds(s, word) && !(word <= s)
    ensures s != "" && Holds(s[1..], word)
  {
    var front: string, back: string :| s == front + word + back;
    assert front == "" ==> word <= s;
    assert s[1..] == front[1..] + word + back;
  }

  /** ASCII letters of one text are the small letters of the other, and all else is the same. */
  predicate Lowered(s: string, low: string) {
    && |low| == |s|
    && forall i :: 0 <= i < |s| ==>
         if 'A' <= s[i] <= 'Z' then low[i] as int == s[i] as int + 32 else low[i] == s[i]
  }

  lemma {:induction false} LowerMeans(s: string)
    ensures Lowered(s, Lower(s))
  {
    if s != "" {
      LowerMeans(s[1..]);
      assert forall i :: 0 < i < |s| ==> Lower(s)[i] == Lower(s[1..])[i - 1] && s[i] == s[1..][i - 1];
    }
  }

  /** A whole number that a 64-bit float holds exactly with all smaller ones. */
  ghost predicate Whole(x: real, n: int) {
    x == n as real && -MAX_SAFE <= n <= MAX_SAFE
  }

  lemma SafeMeans(x: real)
    ensures Safe(x) <==> exists n :: Whole(x, n)
  {
    if Safe(x) {
      assert Whole(x, x.Floor);
    }
  }

  // ----- the grounds for leaving a candidate out -----

  ghost predicate Positive(x: real, n: int) {
    Whole(x, n) && n > 0
  }

  ghost predicate PartOf(c: Candidate, part: Part) {
    part.slug != c.slug && exists n :: Positive(part.count, n)
  }

  /** The parts make up a set of at most six items. */
  ghost predicate MakesSet(c: Candidate, parts: seq<Part>) {
    && (exists front: string :: c.slug == front + "_set")
    && parts != [] && (forall i :: 0 <= i < |parts| ==> PartOf(c, parts[i])) && SumCounts(parts) <= 6.0
  }

  lemma CountMeans(x: real)
    ensures Safe(x) && x > 0.0 <==> exists n :: Positive(x, n)
  {
    SafeMeans(x);
    if Safe(x) && x > 0.0 {
      assert Positive(x, x.Floor);
    }
  }

  lemma ValidSetMeans(c: Candidate)
    ensures ValidSet(c) <==> c.components.Some? && MakesSet(c, c.components.value)
  {
    EndsWithMeans(c.slug, "_set");
    if c.components.Some? {
      forall i | 0 <= i < |c.components.value|
        ensures var part := c.components.value[i];
                part.slug != c.slug && Safe(part.count) && part.count > 0.0 <==> PartOf(c, part)
      {
        CountMeans(c.components.value[i].count);
      }
    }
  }

  /** The candidate owns its slug alone. */
  predicate Alone(candidates: seq<Candidate>, slug: string) {
    && (exists i :: 0 <= i < |candidates| && candidates[i].slug == slug)
    && forall i, j :: 0 <= i < |candidates| && 0 <= j < |candidates| && candidates[i].slug == slug == candidates[j].slug ==> i == j
  }

  lemma {:induction false} CountsMean(candidates: seq<Candidate>, slug: string)
    ensures multiset(Slugs(candidates))[slug] == 0 <==> forall i :: 0 <= i < |candidates| ==> candidates[i].slug != slug
    ensures multiset(Slugs(candidates))[slug] == 1 <==> Alone(candidates, slug)
  {
    var slugs := Slugs(candidates);
    if i :| 0 <= i < |candidates| && candidates[i].slug == slug {
      assert slugs[i] in multiset(slugs);
      if Alone(candidates, slug) {
        OnceOnly(slugs, i);
      } else {
        TwiceThere(candidates, slug);
      }
    } else {
      assert slug !in slugs;
    }
  }

  lemma TwiceThere(candidates: seq<Candidate>, slug: string)
    requires !Alone(candidates, slug) && exists i :: 0 <= i < |candidates| && candidates[i].slug == slug
    ensures multiset(Slugs(candidates))[slug] >= 2
  {
    var i, j :| 0 <= i < |candidates| && 0 <= j < |candidates| && candidates[i].slug == slug == candidates[j].slug && i != j;
    CountTwo(Slugs(candidates), if i < j then i else j, if i < j then j else i);
  }

  lemma OnceOnly(slugs: seq<string>, i: nat)
    requires i < |slugs| && forall j :: 0 <= j < |slugs| && j != i ==> slugs[j] != slugs[i]
    ensures multiset(slugs)[slugs[i]] == 1
  {
    var front, back := slugs[..i], slugs[i + 1..];
    assert slugs == front + ([slugs[i]] + back);
    assert slugs[i] !in front && slugs[i] !in back;
    assert multiset(slugs) == multiset(front) + multiset{slugs[i]} + multiset(back);
  }

  ghost predicate RoundedUp(x: real, n: int) {
    (n - 1) as real < x <= n as real
  }

  lemma CeilMeans(x: real, n: int)
    ensures Ceil(x) == n <==> RoundedUp(x, n)
  {
  }

  ghost predicate Riven(c: Candidate) {
    exists low: string :: Lowered(c.itemType, low) && Holds(low, "riven")
  }

  ghost predicate BadSet(c: Candidate) {
    && (c.components.Some? || exists front: string :: c.slug == front + "_set")
    && !(c.components.Some? && MakesSet(c, c.components.value))
  }

  ghost predicate Confirmed(c: Candidate) {
    exists n, owned :: Positive(c.sellable, n) && Whole(c.owned, owned) && n <= owned
  }

  ghost predicate Quotable(clearing: real) {
    exists n :: RoundedUp(clearing, n) && 5 <= n <= 3000
  }

  /** Why a candidate may be left out. */
  ghost predicate Applies(request: Request, clearing: Market -> real, c: Candidate, reason: Refusal) {
    match reason
    case Identity => c.unsupported || c.subtype != "" || BadSet(c) || Riven(c) || !Alone(request.candidates, c.slug)
    case NoCopies => !Confirmed(c)
    case NoPrice =>
      || (c.market.lowSell <= 0.0 && c.market.avg <= 0.0 && c.market.medianNow <= 0.0 && c.market.median90d <= 0.0)
      || !Quotable(clearing(c.market))
    case OnHold => c.hold && request.mode in {Fast, PerTrade}
    case Thin => c.market.vol < 5.0 && request.mode in {Fast, Clear}
  }

  function Place(reason: Refusal): nat {
    match reason
    case Identity => 0
    case NoCopies => 1
    case NoPrice => 2
    case OnHold => 3
    case Thin => 4
  }

  lemma RivenMeans(c: Candidate)
    ensures Contains(Lower(c.itemType), "riven") <==> Riven(c)
  {
    LowerMeans(c.itemType);
    ContainsMeans(Lower(c.itemType), "riven");
    forall low: string | Lowered(c.itemType, low)
      ensures low == Lower(c.itemType)
    {
      assert forall i :: 0 <= i < |low| ==> low[i] == Lower(c.itemType)[i];
    }
  }

  lemma SetMeans(c: Candidate)
    ensures (c.components.Some? || EndsWith(c.slug, "_set") ==> ValidSet(c)) <==> !BadSet(c)
  {
    EndsWithMeans(c.slug, "_set");
    ValidSetMeans(c);
  }

  lemma IdentityMeans(request: Request, clearing: Market -> real, c: Candidate)
    ensures Supported(c, multiset(Slugs(request.candidates))) <==> !Applies(request, clearing, c, Identity)
  {
    SetMeans(c);
    CountsMean(request.candidates, c.slug);
    RivenMeans(c);
  }

  lemma CopiesMean(c: Candidate)
    ensures Copied(c) <==> Confirmed(c)
  {
    CountMeans(c.sellable);
    SafeMeans(c.owned);
    if Safe(c.sellable) && c.sellable > 0.0 && Safe(c.owned) && c.sellable <= c.owned {
      assert Positive(c.sellable, c.sellable.Floor) && Whole(c.owned, c.owned.Floor);
    }
  }

  lemma PriceMeans(clearing: real, price: int)
    requires price == Ceil(clearing)
    ensures MIN_PLATINUM <= price <= MAX_PLATINUM <==> Quotable(clearing)
  {
    CeilMeans(clearing, price);
  }

  /** The first ground there is, in order. */
  predicate First(grounds: seq<bool>, refusal: Option<Refusal>)
    requires |grounds| == 5
  {
    if refusal.None? then forall i :: 0 <= i < 5 ==> !grounds[i]
    else grounds[Place(refusal.value)] && forall i :: 0 <= i < Place(refusal.value) ==> !grounds[i]
  }

  lemma RefusedFirst(c: Candidate, mode: Mode, counts: multiset<string>, price: int, grounds: seq<bool>)
    requires |grounds| == 5 && grounds[0] == !Supported(c, counts)
    requires grounds[1] == !Copied(c) && grounds[2] == !Priced(c, price)
    requires grounds[3] == (c.hold && mode in {Fast, PerTrade})
    requires grounds[4] == (c.market.vol < 5.0 && mode in {Fast, Clear})
    ensures First(grounds, Refused(c, mode, counts, price))
  {
  }

  lemma ByPlace(request: Request, clearing: Market -> real, c: Candidate, grounds: seq<bool>, refusal: Option<Refusal>)
    requires |grounds| == 5 && forall reason :: grounds[Place(reason)] == Applies(request, clearing, c, reason)
    requires First(grounds, refusal)
    ensures refusal.None? <==> forall reason :: !Applies(request, clearing, c, reason)
    ensures refusal.Some? ==>
              && Applies(request, clearing, c, refusal.value)
              && forall earlier :: Place(earlier) < Place(refusal.value) ==> !Applies(request, clearing, c, earlier)
  {
    if refusal.Some? {
      assert grounds[Place(refusal.value)] == Applies(request, clearing, c, refusal.value);
    }
  }

  predicate Copied(c: Candidate) {
    Safe(c.sellable) && c.sellable > 0.0 && Safe(c.owned) && c.sellable <= c.owned
  }

  predicate Priced(c: Candidate, price: int) {
    && (c.market.lowSell > 0.0 || c.market.avg > 0.0 || c.market.medianNow > 0.0 || c.market.median90d > 0.0)
    && MIN_PLATINUM <= price <= MAX_PLATINUM
  }

  lemma GroundIs(request: Request, clearing: Market -> real, c: Candidate, price: int, reason: Refusal)
    requires price == Ceil(clearing(c.market))
    ensures Applies(request, clearing, c, reason) ==
            match reason
            case Identity => !Supported(c, multiset(Slugs(request.candidates)))
            case NoCopies => !Copied(c)
            case NoPrice => !Priced(c, price)
            case OnHold => c.hold && request.mode in {Fast, PerTrade}
            case Thin => c.market.vol < 5.0 && request.mode in {Fast, Clear}
  {
    match reason
    case Identity => IdentityMeans(request, clearing, c);
    case NoCopies => CopiesMean(c);
    case NoPrice => PriceMeans(clearing(c.market), price);
    case OnHold =>
    case Thin =>
  }

  lemma GroundsOf(request: Request, clearing: Market -> real, c: Candidate, price: int) returns (grounds: seq<bool>)
    requires price == Ceil(clearing(c.market))
    ensures |grounds| == 5 && forall reason :: grounds[Place(reason)] == Applies(request, clearing, c, reason)
    ensures First(grounds, Refused(c, request.mode, multiset(Slugs(request.candidates)), price))
  {
    var counts := multiset(Slugs(request.candidates));
    grounds := [!Supported(c, counts), !Copied(c), !Priced(c, price), c.hold && request.mode in {Fast, PerTrade},
                c.market.vol < 5.0 && request.mode in {Fast, Clear}];
    RefusedFirst(c, request.mode, counts, price, grounds);
    forall reason
      ensures grounds[Place(reason)] == Applies(request, clearing, c, reason)
    {
      GroundIs(request, clearing, c, price, reason);
    }
  }

  /** A candidate becomes a row if and only if nothing speaks against it, and is left out for the first that does. */
  lemma JudgedExactly(request: Request, clearing: Market -> real, c: Candidate)
    ensures var judged := Judge(c, SettingOf(request, clearing));
            && (judged.Ok? <==> forall reason :: !Applies(request, clearing, c, reason))
            && (judged.Err? ==>
                  judged.error.name == c.name && Applies(request, clearing, c, judged.error.reason)
                  && forall earlier :: Place(earlier) < Place(judged.error.reason) ==> !Applies(request, clearing, c, earlier))
  {
    var price, counts := Ceil(clearing(c.market)), multiset(Slugs(request.candidates));
    var grounds := GroundsOf(request, clearing, c, price);
    ByPlace(request, clearing, c, grounds, Refused(c, request.mode, counts, price));
  }

  // ----- what a row holds -----

  /** `d` copies may go in one exchange. */
  predicate LotFits(c: Candidate, mode: Mode, sellable: int, price: int, d: int) {
    && 1 <= d <= 6 && d <= sellable && price * d <= 3000
    && (mode == Fast || c.components.Some? || !c.bulk ==> d == 1)
    && (mode == Clear ==> sellable % d == 0)
  }

  ghost predicate NeedOf(part: Part, need: Need) {
    need.slug == part.slug && Whole(part.count, need.count)
  }

  /** The row is its candidate's: whole copies, the price rounded up, the largest lot that fits, the parts of a set. */
  ghost predicate RowFor(c: Candidate, mode: Mode, clearing: real, row: Row) {
    && row.candidate == c && row.quantity == row.trades == 0
    && Whole(c.sellable, row.sellable) && RoundedUp(clearing, row.price)
    && LotFits(c, mode, row.sellable, row.price, row.lot)
    && (forall d :: LotFits(c, mode, row.sellable, row.price, d) ==> d <= row.lot)
    && (c.market.topBuy > 0.0 ==> row.bid == Some(c.market.topBuy)) && (c.market.topBuy <= 0.0 ==> row.bid == None)
    && (c.components.None? ==> row.needs == [Need(c.slug, 1)])
    && (c.components.Some? ==>
          |row.needs| == |c.components.value|
          && forall i :: 0 <= i < |row.needs| ==> NeedOf(c.components.value[i], row.needs[i]))
  }

  /** What the pool holds at the start of everything the row needs. */
  predicate LimitsRight(needs: seq<Need>, pool: map<string, int>, limits: map<string, int>) {
    && (forall slug :: slug in limits ==> exists i :: 0 <= i < |needs| && needs[i].slug == slug)
    && forall i :: 0 <= i < |needs| ==>
         needs[i].slug in limits && limits[needs[i].slug] == if needs[i].slug in pool then pool[needs[i].slug] else 0
  }

  lemma {:induction false} LimitsMean(needs: seq<Need>, pool: map<string, int>)
    ensures LimitsRight(needs, pool, LimitsOf(needs, pool))
  {
    if needs != [] {
      LimitsMean(needs[1..], pool);
      assert needs == [needs[0]] + needs[1..];
    }
  }

  lemma PriceAllows(price: int, d: int)
    requires 1 <= price && 1 <= d
    ensures price * d <= MAX_PLATINUM <==> d <= MAX_PLATINUM / price
  {
    var q, r := MAX_PLATINUM / price, MAX_PLATINUM % price;
    assert price * q + r == MAX_PLATINUM && 0 <= r < price;
    if d <= q {
      Multiply(price, d, q);
    } else {
      Multiply(price, q + 1, d);
    }
  }

  lemma Multiply(price: int, a: int, b: int)
    requires price >= 0 && a <= b
    ensures price * a <= price * b && price * (b + 1) == price * b + price && price * (a + 1) == price * a + price
  {
    assert price * b == price * a + price * (b - a);
  }

  /** The lot before Clear lowers it is the largest that moves at most six items and 3000 platinum. */
  lemma StartLotMeans(c: Candidate, mode: Mode, price: int, sellable: int, d: int)
    requires 1 <= price <= MAX_PLATINUM && sellable == c.sellable.Floor >= 1 && (c.components.Some? ==> ValidSet(c))
    ensures 1 <= d <= StartLot(c, mode, price) <==>
      1 <= d <= 6 && d <= sellable && price * d <= 3000 && (mode == Fast || c.components.Some? || !c.bulk ==> d == 1)
  {
    if d >= 1 {
      PriceAllows(price, d);
    }
  }

  lemma LotMeans(c: Candidate, mode: Mode, price: int, sellable: int, lot: int)
    requires 1 <= price <= MAX_PLATINUM && sellable == c.sellable.Floor >= 1 && (c.components.Some? ==> ValidSet(c))
    requires StartLot(c, mode, price) >= 1
    requires lot == if mode.Clear? then DivisorBelow(sellable, StartLot(c, mode, price)) else StartLot(c, mode, price)
    ensures LotFits(c, mode, sellable, price, lot)
    ensures forall d :: LotFits(c, mode, sellable, price, d) ==> d <= lot
  {
    var start := StartLot(c, mode, price);
    LargestDivisor(sellable, start);
    StartLotMeans(c, mode, price, sellable, lot);
    forall d | LotFits(c, mode, sellable, price, d)
      ensures d <= lot
    {
      StartLotMeans(c, mode, price, sellable, d);
    }
  }

  lemma JudgedRowFor(request: Request, clearing: Market -> real, c: Candidate)
    requires Judge(c, SettingOf(request, clearing)).Ok?
    ensures var s, row := SettingOf(request, clearing), Judge(c, SettingOf(request, clearing)).value;
            && RowFor(c, request.mode, clearing(c.market), row)
            && LimitsRight(row.needs, s.pool, row.componentLimits)
  {
    var s := SettingOf(request, clearing);
    var row := Judge(c, s).value;
    LimitsMean(row.needs, s.pool);
    CeilMeans(clearing(c.market), row.price);
    SafeInteger(c.sellable);
    assert Whole(c.sellable, row.sellable);
    StartLotBounds(c, s.mode, row.price);
    LotMeans(c, s.mode, row.price, row.sellable, row.lot);
  }

  // ----- the rows, the exclusions and the pool of a request -----

  /** Each candidate is either a row or an exclusion, as often as it occurs. */
  lemma {:induction false} EachJudgedOnce(candidates: seq<Candidate>, s: Setting)
    ensures |Eligible(candidates, s)| + |Excluded(candidates, s)| == |candidates|
  {
    if candidates != [] {
      EachJudgedOnce(candidates[..|candidates| - 1], s);
    }
  }

  /** Some candidate is judged to this. */
  predicate Judged(candidates: seq<Candidate>, s: Setting, judged: Result<Row, Exclusion>) {
    exists i :: 0 <= i < |candidates| && Judge(candidates[i], s) == judged
  }

  lemma JudgedSplit(candidates: seq<Candidate>, s: Setting, judged: Result<Row, Exclusion>)
    requires candidates != []
    ensures Judged(candidates, s, judged)
       <==> Judged(candidates[..|candidates| - 1], s, judged) || Judge(candidates[|candidates| - 1], s) == judged
  {
    var n := |candidates| - 1;
    assert forall i :: 0 <= i < n ==> candidates[..n][i] == candidates[i];
  }

  lemma {:induction false} RowsAreJudged(candidates: seq<Candidate>, s: Setting, row: Row)
    ensures row in Eligible(candidates, s) <==> Judged(candidates, s, Ok(row))
  {
    if candidates != [] {
      RowsAreJudged(candidates[..|candidates| - 1], s, row);
      JudgedSplit(candidates, s, Ok(row));
    }
  }

  lemma {:induction false} ExclusionsAreJudged(candidates: seq<Candidate>, s: Setting, out: Exclusion)
    ensures out in Excluded(candidates, s) <==> Judged(candidates, s, Err(out))
  {
    if candidates != [] {
      ExclusionsAreJudged(candidates[..|candidates| - 1], s, out);
      JudgedSplit(candidates, s, Err(out));
    }
  }

  /** Copies a set may draw on: a plain, loose item that owns its slug alone, counted if its stack is a whole number. */
  ghost predicate Loose(candidates: seq<Candidate>, c: Candidate, copies: int) {
    && c in candidates && c.components.None? && c.subtype == "" && Alone(candidates, c.slug)
    && !(exists front: string :: c.slug == front + "_set")
    && (if exists n :: Whole(c.sellable, n) && n >= 0 then Whole(c.sellable, copies) else copies == 0)
  }

  lemma CopiesAre(x: Candidate, copies: int)
    ensures Copies(x) == copies <==> if exists n :: Whole(x.sellable, n) && n >= 0 then Whole(x.sellable, copies) else copies == 0
  {
    SafeMeans(x.sellable);
    if Safe(x.sellable) && x.sellable >= 0.0 {
      assert Whole(x.sellable, x.sellable.Floor) && x.sellable.Floor >= 0;
    }
  }

  /** The pool at the start holds the copies of loose items, each under its slug, and nothing else. */
  lemma PoolMeans(request: Request, clearing: Market -> real, slug: string, copies: int)
    ensures slug in Start(request, clearing).pool && Start(request, clearing).pool[slug] == copies
       <==> exists c: Candidate :: c.slug == slug && Loose(request.candidates, c, copies)
  {
    var candidates := request.candidates;
    var counts := multiset(Slugs(candidates));
    OwnersUnique(candidates);
    PoolHolds(candidates, counts, slug, copies);
    CountsMean(candidates, slug);
    forall i | 0 <= i < |candidates| && candidates[i].slug == slug
      ensures Owns(candidates[i], counts, slug, copies) <==> Loose(candidates, candidates[i], copies)
    {
      EndsWithMeans(slug, "_set");
      CopiesAre(candidates[i], copies);
      assert candidates[i] in candidates;
    }
    if c: Candidate :| c.slug == slug && Loose(candidates, c, copies) {
      var i :| 0 <= i < |candidates| && candidates[i] == c;
    }
    if i :| 0 <= i < |candidates| && Owns(candidates[i], counts, slug, copies) {
      assert Loose(candidates, candidates[i], copies);
    }
  }

  // ----- the figures of the plan -----

  /** The cap is the budget, at least 0 and at most 50, and 0 for one that is no whole number. */
  lemma CapMeans(budget: real)
    ensures (exists n :: Whole(budget, n) && 0 <= n <= 50) ==> Whole(budget, Cap(budget))
    ensures (exists n :: Whole(budget, n) && n > 50) ==> Cap(budget) == 50
    ensures !(exists n :: Whole(budget, n) && n >= 0) ==> Cap(budget) == 0
  {
    SafeMeans(budget);
  }

  /** The plan's goal is the target if that is positive, and the shortfall is what is missing of it. */
  lemma PlanFigures(request: Request, clearing: Market -> real)
    ensures var plan := Select(request, clearing);
            && (plan.target.Some? <==> request.target.Some? && request.target.value > 0.0)
            && (plan.target.Some? ==> plan.target == request.target)
            && (plan.target.None? ==> plan.shortfall.None?)
            && (plan.target.Some? ==>
                  plan.shortfall.Some? && plan.shortfall.value >= 0.0
                  && plan.total as real + plan.shortfall.value >= plan.target.value
                  && (plan.shortfall.value > 0.0 ==> plan.total as real + plan.shortfall.value == plan.target.value))
  {
  }
}
