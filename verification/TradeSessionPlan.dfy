/** What a finished plan guarantees. */
module TradeSessionPlan {
  import opened Outcome
  import opened Sorting
  import opened TradeSession
  import opened TradeSessionProofs

  // ----- the request -----

  /** The parts of a set are a map from slugs: no slug occurs twice. */
  predicate WellFormed(c: Candidate) {
    c.components.Some? ==>
      forall i, j :: 0 <= i < j < |c.components.value| ==> c.components.value[i].slug != c.components.value[j].slug
  }

  predicate WellFormedRequest(request: Request) {
    forall i :: 0 <= i < |request.candidates| ==> WellFormed(request.candidates[i])
  }

  // ----- rows as judged -----

  lemma {:induction false} NeedsOfSet(parts: seq<Part>)
    requires forall i :: 0 <= i < |parts| ==> Safe(parts[i].count) && parts[i].count > 0.0
    ensures TotalNeeds(NeedsOf(parts)) as real == SumCounts(parts)
    ensures forall i :: 0 <= i < |parts| ==> NeedsOf(parts)[i].count > 0
  {
    if parts != [] {
      NeedsOfSet(parts[1..]);
    }
  }

  lemma LotFitsPrice(lot: int, price: int)
    requires 1 <= price <= MAX_PLATINUM && 1 <= lot <= MAX_PLATINUM / price
    ensures price * lot <= MAX_PLATINUM
  {
    assert price * (MAX_PLATINUM / price) <= MAX_PLATINUM;
    assert price * lot <= price * (MAX_PLATINUM / price);
  }

  lemma StartLotBounds(c: Candidate, mode: Mode, price: int)
    requires 1 <= price <= MAX_PLATINUM && c.sellable >= 1.0
    ensures var lot := StartLot(c, mode, price);
            && 1 <= lot <= MAX_PER_TRADE
            && (c.bulk || lot == 1)
            && (ValidSet(c) ==> lot == 1)
            && forall d :: 1 <= d <= lot ==> price * d <= MAX_PLATINUM
  {
    var lot := StartLot(c, mode, price);
    forall d | 1 <= d <= lot
      ensures price * d <= MAX_PLATINUM
    {
      if lot > 1 {
        LotFitsPrice(d, price);
      }
    }
  }

  lemma {:induction false} LargestDivisor(sellable: int, lot: int)
    requires lot >= 1
    ensures sellable % DivisorBelow(sellable, lot) == 0
    ensures forall d :: DivisorBelow(sellable, lot) < d <= lot ==> sellable % d != 0
    decreases lot
  {
    if lot > 1 && sellable % lot != 0 {
      LargestDivisor(sellable, lot - 1);
    }
  }

  lemma SafeInteger(n: real)
    requires Safe(n) && n > 0.0
    ensures 1 <= n.Floor <= MAX_SAFE && n >= 1.0
  {
  }

  /** Every eligible row is tradable, and in Clear its lot is the largest that empties the stack. */
  lemma JudgedTradable(c: Candidate, s: Setting)
    requires WellFormed(c) && Judge(c, s).Ok?
    ensures var row := Judge(c, s).value;
            && Tradable(row) && row.candidate == c && row.trades == 0 && row.quantity == 0
            && 1 <= row.lot <= StartLot(c, s.mode, row.price)
            && (s.mode.Clear? ==>
                  row.sellable % row.lot == 0
                  && forall d :: row.lot < d <= StartLot(c, s.mode, row.price) ==> row.sellable % d != 0)
            && (!s.mode.Clear? ==> row.lot == StartLot(c, s.mode, row.price))
  {
    var row := Judge(c, s).value;
    SafeInteger(c.sellable);
    StartLotBounds(c, s.mode, row.price);
    LargestDivisor(row.sellable, StartLot(c, s.mode, row.price));
    if c.components.Some? {
      NeedsOfSet(c.components.value);
      assert (TotalNeeds(row.needs) as real) <= (MAX_PER_TRADE as real);
      assert row.lot == 1;
    } else {
      assert row.needs == [Need(c.slug, 1)];
      assert TotalNeeds(row.needs[1..]) == 0;
      assert TotalNeeds(row.needs) == 1;
    }
  }

  lemma {:induction false} EligibleTradable(candidates: seq<Candidate>, s: Setting)
    requires forall i :: 0 <= i < |candidates| ==> WellFormed(candidates[i])
    ensures forall i :: 0 <= i < |Eligible(candidates, s)| ==>
      var row := Eligible(candidates, s)[i];
      Tradable(row) && row.trades == 0 && row.quantity == 0
      && row.candidate in candidates && Judge(row.candidate, s) == Ok(row)
  {
    if candidates != [] {
      var n := |candidates| - 1;
      EligibleTradable(candidates[..n], s);
      if Judge(candidates[n], s).Ok? {
        JudgedTradable(candidates[n], s);
        assert candidates[n] in candidates;
      }
    }
  }

  // ----- the start -----

  lemma {:induction false} PoolNonNegative(candidates: seq<Candidate>, counts: multiset<string>)
    ensures forall slug :: slug in PoolOf(candidates, counts) ==> PoolOf(candidates, counts)[slug] >= 0
  {
    if candidates != [] {
      PoolNonNegative(candidates[..|candidates| - 1], counts);
    }
  }

  /** The rows a request starts from: tradable, judged from a candidate, with nothing taken. */
  predicate Untouched(row: Row, request: Request, setting: Setting) {
    Tradable(row) && row.trades == 0 && row.quantity == 0
    && row.candidate in request.candidates && Judge(row.candidate, setting) == Ok(row)
  }

  lemma StartRows(request: Request, clearing: Market -> real)
    requires WellFormedRequest(request)
    ensures forall i :: 0 <= i < |Start(request, clearing).rows| ==>
      Untouched(Start(request, clearing).rows[i], request, SettingOf(request, clearing))
  {
    var setting := SettingOf(request, clearing);
    var rows := Eligible(request.candidates, setting);
    EligibleTradable(request.candidates, setting);
    var sorted := Sort(rows, RankedFirst);
    forall i | 0 <= i < |sorted|
      ensures Untouched(sorted[i], request, setting)
    {
      assert sorted[i] in multiset(sorted);
      assert sorted[i] in rows;
    }
  }

  lemma StartInvariant(request: Request, clearing: Market -> real)
    requires WellFormedRequest(request)
    ensures var s := Start(request, clearing);
            Invariant(LimitsFor(request), s, s, []) && Sound(s)
            && forall i :: 0 <= i < |s.rows| ==> s.rows[i].trades == 0
  {
    StartRows(request, clearing);
    PoolNonNegative(request.candidates, SettingOf(request, clearing).counts);
    var s := Start(request, clearing);
    forall i | 0 <= i < |s.rows|
      ensures NothingTaken(s.rows[i])
    {
      assert Untouched(s.rows[i], request, SettingOf(request, clearing));
    }
    NothingTakenInvariant(LimitsFor(request), s);
  }

  predicate NothingTaken(row: Row) {
    Tradable(row) && row.trades == 0 && row.quantity == 0
  }

  lemma NothingTakenInvariant(l: Limits, s: State)
    requires forall i :: 0 <= i < |s.rows| ==> NothingTaken(s.rows[i])
    requires forall slug :: slug in s.pool ==> s.pool[slug] >= 0
    requires s.trades == 0 && s.total == 0 && l.cap >= 0
    ensures Invariant(l, s, s, []) && Sound(s) && forall i :: 0 <= i < |s.rows| ==> s.rows[i].trades == 0
  {
    assert forall i :: 0 <= i < |s.rows| ==> NothingTaken(s.rows[i]) && Held(s.rows[i]);
    SumZero(s.rows, Worth);
    SumZero(s.rows, Exchanges);
    forall slug
      ensures SumOf(s.rows, Units(slug)) == 0
    {
      SumZero(s.rows, Units(slug));
    }
  }

  // ----- the result -----

  lemma FinalInvariant(request: Request, clearing: Market -> real) returns (run: seq<nat>)
    requires WellFormedRequest(request)
    ensures run == FinalRun(request, clearing)
    ensures Invariant(LimitsFor(request), Start(request, clearing), Final(request, clearing), run)
  {
    StartInvariant(request, clearing);
    run := FinalRun(request, clearing);
    AllocationIsARun(request.mode, LimitsFor(request), Start(request, clearing));
    RunKeepsInvariant(LimitsFor(request), Start(request, clearing), run);
  }

  lemma {:induction false} EmittedRows(rows: seq<Row>, f: Row -> int)
    requires forall i :: 0 <= i < |rows| ==> rows[i].quantity == 0 ==> f(rows[i]) == 0
    ensures SumOf(Emitted(rows), f) == SumOf(rows, f)
  {
    if rows != [] {
      var n := |rows| - 1;
      EmittedRows(rows[..n], f);
      assert rows == rows[..n] + [rows[n]];
      SumAppend(rows[..n], rows[n], f);
      SumAppend(Emitted(rows[..n]), rows[n], f);
      assert Emitted(rows[..n]) + [] == Emitted(rows[..n]);
    }
  }

  lemma {:induction false} EmittedAre(rows: seq<Row>)
    ensures forall row :: row in Emitted(rows) <==> row in rows && row.quantity != 0
  {
    if rows != [] {
      EmittedAre(rows[..|rows| - 1]);
      assert rows == rows[..|rows| - 1] + [rows[|rows| - 1]];
    }
  }

  lemma {:induction false} SumAppend(rows: seq<Row>, row: Row, f: Row -> int)
    ensures SumOf(rows + [row], f) == SumOf(rows, f) + f(row)
  {
    if rows == [] {
      assert [row][1..] == [];
    } else {
      assert (rows + [row])[1..] == rows[1..] + [row];
      SumAppend(rows[1..], row, f);
    }
  }

  /** What a row of a plan promises the player. */
  predicate Listable(row: Row) {
    && ValidLot(row.quantity, row.lot, row.candidate.bulk)
    && row.quantity == row.trades * row.lot <= row.sellable
    && TotalNeeds(row.needs) * row.lot <= MAX_PER_TRADE
    && MIN_PLATINUM <= row.price && row.price * row.lot <= MAX_PLATINUM
  }

  lemma HeldListable(row: Row)
    requires Held(row) && row.quantity != 0
    ensures Listable(row)
  {
    assert (row.trades * row.lot) % row.lot == 0 by {
      MultipleDivides(row.trades, row.lot);
    }
  }

  lemma SmallMultiple(d: int, k: int)
    requires d > 0 && 0 <= d * k < d
    ensures k == 0
  {
    assert k >= 1 ==> d * k >= d;
    assert k <= -1 ==> d * k <= -d;
  }

  lemma MultipleDivides(n: int, d: int)
    requires d > 0
    ensures (n * d) % d == 0
  {
    var q, r := (n * d) / d, (n * d) % d;
    assert d * (n - q) == r;
    SmallMultiple(d, n - q);
  }

  /** Slug by slug, the rows take exactly what the pool gave up, and it gave up no more than it had. */
  ghost predicate Accounts(rows: seq<Row>, before: map<string, int>, after: map<string, int>) {
    && after.Keys == before.Keys
    && (forall slug :: slug in before ==> after[slug] >= 0 && SumOf(rows, Units(slug)) + after[slug] == before[slug])
    && (forall slug :: slug !in before ==> SumOf(rows, Units(slug)) == 0)
  }

  /** The row is what its candidate was judged to be, with what was taken filled in. */
  predicate JudgedFrom(row: Row, request: Request, setting: Setting) {
    && row.candidate in request.candidates
    && Judge(row.candidate, setting).Ok?
    && row == Judge(row.candidate, setting).value.(quantity := row.quantity, trades := row.trades)
  }

  /** `plan` came about by the exchanges of `run`, each of them made while the target was open. */
  predicate MadeBy(plan: Plan, l: Limits, start: State, run: seq<nat>) {
    && |run| == plan.trades
    && Replay(l, start, run).total == plan.total && Emitted(Replay(l, start, run).rows) == plan.rows
    && forall k :: 0 <= k < |run| ==>
         && run[k] < |start.rows| && CanAdd(l, Replay(l, start, run[..k]), run[k])
         && (plan.target.Some? ==> Replay(l, start, run[..k]).total as real < plan.target.value)
  }

  /** The last exchange went to a listed row, and without it the plan falls short of its target. */
  predicate NeededLast(plan: Plan, start: State, last: nat) {
    last < |start.rows|
    && (exists row :: row in plan.rows && row.candidate == start.rows[last].candidate)
    && (plan.target.Some? ==>
          (plan.total - start.rows[last].price * start.rows[last].lot) as real < plan.target.value)
  }

  /**
   * Every plan: its rows are judged candidates of the request that can be listed and traded, its totals are
   * those of its rows, it stays within the cap, the pool pays for exactly what the rows take, and each of the
   * exchanges made, in the order in which they were made, found the target still open.
   */
  lemma PlanKeepsItsPromises(request: Request, clearing: Market -> real) returns (run: seq<nat>)
    requires WellFormedRequest(request)
    ensures var plan, setting := Select(request, clearing), SettingOf(request, clearing);
            && (forall i :: 0 <= i < |plan.rows| ==> Listable(plan.rows[i]) && JudgedFrom(plan.rows[i], request, setting))
            && plan.total == SumOf(plan.rows, Worth)
            && plan.trades == SumOf(plan.rows, Exchanges) <= Cap(request.budget)
            && Accounts(plan.rows, setting.pool, Final(request, clearing).pool)
    ensures run == FinalRun(request, clearing)
    ensures MadeBy(Select(request, clearing), LimitsFor(request), Start(request, clearing), run)
    ensures run != [] ==> NeededLast(Select(request, clearing), Start(request, clearing), run[|run| - 1])
  {
    run := FinalInvariant(request, clearing);
    var l, start, s := LimitsFor(request), Start(request, clearing), Final(request, clearing);
    StartInvariant(request, clearing);
    ReplayFollows(l, start, run);
    var rows := Emitted(s.rows);
    EmittedListable(l, start, s, run, rows);
    EmittedTotals(l, start, s, run, rows);
    forall i | 0 <= i < |rows|
      ensures JudgedFrom(rows[i], request, SettingOf(request, clearing))
    {
      assert rows[i] in rows;
      var j :| 0 <= j < |s.rows| && s.rows[j] == rows[i];
      StartRows(request, clearing);
      assert Untouched(start.rows[j], request, SettingOf(request, clearing));
    }
    EachOpen(l, start, run);
    if run != [] {
      LastExchange(l, start, s, run, rows);
    }
  }

  lemma EachOpen(l: Limits, start: State, run: seq<nat>)
    requires Allowed(l, start, run)
    ensures forall k :: 0 <= k < |run| ==>
      && run[k] < |start.rows| && CanAdd(l, Replay(l, start, run[..k]), run[k])
      && (l.goal.Some? ==> Replay(l, start, run[..k]).total as real < l.goal.value)
  {
    forall k | 0 <= k < |run|
      ensures run[k] < |start.rows| && CanAdd(l, Replay(l, start, run[..k]), run[k])
    {
      EachWasAllowed(l, start, run, k);
    }
  }

  lemma EmittedListable(l: Limits, start: State, s: State, run: seq<nat>, rows: seq<Row>)
    requires Invariant(l, start, s, run) && rows == Emitted(s.rows)
    ensures forall i :: 0 <= i < |rows| ==> Listable(rows[i])
    ensures forall row :: row in rows <==> row in s.rows && row.quantity != 0
  {
    EmittedAre(s.rows);
    forall i | 0 <= i < |rows|
      ensures Listable(rows[i])
    {
      assert rows[i] in rows;
      var j :| 0 <= j < |s.rows| && s.rows[j] == rows[i];
      HeldListable(s.rows[j]);
    }
  }

  lemma EmittedTotals(l: Limits, start: State, s: State, run: seq<nat>, rows: seq<Row>)
    requires Invariant(l, start, s, run) && rows == Emitted(s.rows)
    ensures SumOf(rows, Worth) == s.total && SumOf(rows, Exchanges) == s.trades
    ensures forall slug :: SumOf(rows, Units(slug)) == SumOf(s.rows, Units(slug))
  {
    forall i | 0 <= i < |s.rows| && s.rows[i].quantity == 0
      ensures Worth(s.rows[i]) == 0 && Exchanges(s.rows[i]) == 0
    {
      assert Held(s.rows[i]);
      NoQuantityNoTrades(s.rows[i]);
    }
    EmittedRows(s.rows, Worth);
    EmittedRows(s.rows, Exchanges);
    forall slug
      ensures SumOf(rows, Units(slug)) == SumOf(s.rows, Units(slug))
    {
      EmittedRows(s.rows, Units(slug));
    }
  }

  lemma NoQuantityNoTrades(row: Row)
    requires Held(row)
    ensures row.quantity == 0 <==> row.trades == 0
  {
    if row.trades > 0 {
      assert row.trades * row.lot >= row.lot;
    }
  }

  /** What the last exchange of a run added. */
  lemma LastExchange(l: Limits, start: State, s: State, run: seq<nat>, rows: seq<Row>)
    requires Invariant(l, start, s, run) && run != [] && Sound(start)
    requires forall row :: row in rows <==> row in s.rows && row.quantity != 0
    ensures var last, before := run[|run| - 1], Replay(l, start, run[..|run| - 1]);
            && last < |start.rows| && s.total == before.total + start.rows[last].price * start.rows[last].lot
            && (l.goal.Some? ==> before.total as real < l.goal.value)
            && exists row :: row in rows && row.candidate == start.rows[last].candidate
  {
    var n := |run| - 1;
    var last, before := run[n], Replay(l, start, run[..n]);
    assert CanAdd(l, before, last);
    ReplayFollows(l, start, run[..n]);
    ReplayFollows(l, start, run);
    assert s == Add(l, before, last);
    assert Held(before.rows[last]) && Held(s.rows[last]);
    NoQuantityNoTrades(s.rows[last]);
    assert s.rows[last] in s.rows && s.rows[last] in rows;
  }

  /** The row has no copies left for a lot, or the pool is short of something it needs. */
  predicate Stopped(s: State, row: Row) {
    || row.quantity + row.lot > row.sellable
    || exists j :: 0 <= j < |row.needs| && Left(s.pool, row.needs[j].slug) < row.needs[j].count * row.lot
  }

  lemma ExhaustedStops(l: Limits, s: State)
    requires Exhausted(l, s) && s.trades <= l.cap
    ensures || s.trades == l.cap
            || (l.goal.Some? && s.total as real >= l.goal.value)
            || forall i :: 0 <= i < |s.rows| ==> Stopped(s, s.rows[i])
  {
    if !Full(l, s) {
      forall i | 0 <= i < |s.rows|
        ensures Stopped(s, s.rows[i])
      {
        assert !CanAdd(l, s, i);
      }
    }
  }

  /** On return the cap is spent, the goal is met, or no row can take another lot. */
  lemma PlanIsMaximal(request: Request, clearing: Market -> real)
    requires WellFormedRequest(request)
    ensures var s := Final(request, clearing);
            || s.trades == Cap(request.budget)
            || (Goal(request.target).Some? && s.total as real >= Goal(request.target).value)
            || forall i :: 0 <= i < |s.rows| ==> Stopped(s, s.rows[i])
  {
    StartInvariant(request, clearing);
    var run := FinalInvariant(request, clearing);
    AllocateExhausts(request.mode, LimitsFor(request), Start(request, clearing));
    ExhaustedStops(LimitsFor(request), Final(request, clearing));
  }

  lemma AllocateExhausts(mode: Mode, l: Limits, s: State)
    requires Sound(s)
    ensures Exhausted(l, Allocate(mode, l, s))
  {
    ByRoundsExhausts(l, s);
    ByRowsExhausts(l, s, |s.rows|);
  }

  lemma {:induction false} ExhaustedRound(l: Limits, s: State, n: nat)
    requires n <= |s.rows| && Exhausted(l, s)
    ensures Round(l, s, n) == s
  {
    if n > 0 {
      ExhaustedRound(l, s, n - 1);
    }
  }

  lemma {:induction false} ExhaustedStays(l: Limits, s: State, q: nat, p: nat)
    requires q <= p && Exhausted(l, RoundStart(l, s, q))
    ensures RoundStart(l, s, p) == RoundStart(l, s, q)
    decreases p
  {
    if q < p {
      ExhaustedStays(l, s, q, p - 1);
      ExhaustedRound(l, RoundStart(l, s, q), |s.rows|);
    }
  }

  /**
   * In Fast and PerTrade, a row that is behind at any turn of any round keeps, at every later
   * turn and in the plan, what it had then.
   */
  lemma RoundRobinIsFair(request: Request, clearing: Market -> real, p: nat, n: nat, a: nat, b: nat)
    requires WellFormedRequest(request) && (request.mode.Fast? || request.mode.PerTrade?)
    requires var rows := Start(request, clearing).rows; n <= |rows| && a < |rows| && b < |rows|
    requires Behind(Turn(LimitsFor(request), Start(request, clearing), p, n), a, b)
    ensures Final(request, clearing).rows[b] == Turn(LimitsFor(request), Start(request, clearing), p, n).rows[b]
    ensures forall q: nat, m: nat :: m <= |Start(request, clearing).rows| && Later(p, n, q, m) ==>
      Turn(LimitsFor(request), Start(request, clearing), q, m).rows[b]
      == Turn(LimitsFor(request), Start(request, clearing), p, n).rows[b]
  {
    StartInvariant(request, clearing);
    FairFrom(LimitsFor(request), Start(request, clearing), p, n, a, b);
  }

  lemma FairFrom(l: Limits, s: State, p: nat, n: nat, a: nat, b: nat)
    requires Sound(s) && forall i :: 0 <= i < |s.rows| ==> s.rows[i].trades == 0
    requires n <= |s.rows| && a < |s.rows| && b < |s.rows| && Behind(Turn(l, s, p, n), a, b)
    ensures ByRounds(l, s).rows[b] == Turn(l, s, p, n).rows[b]
    ensures forall q: nat, m: nat :: m <= |s.rows| && Later(p, n, q, m) ==>
      Turn(l, s, q, m).rows[b] == Turn(l, s, p, n).rows[b]
  {
    forall q: nat, m: nat | m <= |s.rows| && Later(p, n, q, m)
      ensures Turn(l, s, q, m).rows[b] == Turn(l, s, p, n).rows[b]
    {
      BehindForever(l, s, p, n, q, m, a, b);
    }
    var q := ByRoundsIsARound(l, s);
    ByRoundsExhausts(l, s);
    var end := if q <= p then p + 1 else q;
    ExhaustedStays(l, s, q, end);
    assert Turn(l, s, end, 0) == RoundStart(l, s, end);
    assert Later(p, n, end, 0);
  }
}
