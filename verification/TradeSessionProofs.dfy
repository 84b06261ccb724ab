/** Conservation, maximality, fairness and the bounds of a plan. */
module TradeSessionProofs {
  import opened TradeSession
  import opened Sequences

  // ----- sums over rows -----

  function SumOf(rows: seq<Row>, f: Row -> int): int {
    if rows == [] then 0 else f(rows[0]) + SumOf(rows[1..], f)
  }

  lemma {:induction false} SumUpdate(rows: seq<Row>, i: nat, row: Row, f: Row -> int)
    requires i < |rows|
    ensures SumOf(rows[i := row], f) == SumOf(rows, f) - f(rows[i]) + f(row)
  {
    var changed := rows[i := row];
    if i == 0 {
      assert changed[1..] == rows[1..];
    } else {
      assert changed[1..] == rows[1..][i - 1 := row];
      SumUpdate(rows[1..], i - 1, row, f);
    }
  }

  lemma {:induction false} SumZero(rows: seq<Row>, f: Row -> int)
    requires forall i :: 0 <= i < |rows| ==> f(rows[i]) == 0
    ensures SumOf(rows, f) == 0
  {
    if rows != [] {
      SumZero(rows[1..], f);
    }
  }

  function Worth(row: Row): int {
    row.price * row.quantity
  }

  function Exchanges(row: Row): int {
    row.trades
  }

  /** Units of `slug` in one copy of the row's item. */
  function Demand(needs: seq<Need>, slug: string): int {
    if needs == [] then 0
    else (if needs[|needs| - 1].slug == slug then needs[|needs| - 1].count else 0) + Demand(needs[..|needs| - 1], slug)
  }

  function Units(slug: string): Row -> int {
    (row: Row) => Demand(row.needs, slug) * row.quantity
  }

  // ----- what a row may hold -----

  predicate DistinctNeeds(needs: seq<Need>) {
    forall i, j :: 0 <= i < j < |needs| ==> needs[i].slug != needs[j].slug
  }

  function TotalNeeds(needs: seq<Need>): int {
    if needs == [] then 0 else needs[0].count + TotalNeeds(needs[1..])
  }

  /** The fixed part of a row: its lot is tradable and fits one exchange. */
  predicate Tradable(row: Row) {
    && 1 <= row.sellable <= MAX_SAFE
    && 1 <= row.lot <= MAX_PER_TRADE
    && (row.candidate.bulk || row.lot == 1)
    && MIN_PLATINUM <= row.price
    && row.price * row.lot <= MAX_PLATINUM
    && DistinctNeeds(row.needs)
    && (forall i :: 0 <= i < |row.needs| ==> row.needs[i].count > 0)
    && TotalNeeds(row.needs) * row.lot <= MAX_PER_TRADE
  }

  /** What every state of the allocation satisfies, row by row. */
  predicate Held(row: Row) {
    Tradable(row) && 0 <= row.trades && row.quantity == row.trades * row.lot <= row.sellable
  }

  predicate AllHeld(rows: seq<Row>) {
    forall i :: 0 <= i < |rows| ==> Held(rows[i])
  }

  /** Units taken and units left add up to the pool at the start, slug by slug. */
  ghost predicate Conserved(s: State, pool: map<string, int>) {
    && s.pool.Keys == pool.Keys
    && (forall slug :: slug in pool ==> 0 <= s.pool[slug] && s.pool[slug] + SumOf(s.rows, Units(slug)) == pool[slug])
    && (forall slug :: slug !in pool ==> SumOf(s.rows, Units(slug)) == 0)
  }

  /** The state after the exchanges of `run`, one after the other: each gives a lot to the row of its number. */
  function Replay(l: Limits, start: State, run: seq<nat>): (s: State)
    ensures |s.rows| == |start.rows|
  {
    if run == [] then start
    else
      var n := |run| - 1;
      var before := Replay(l, start, run[..n]);
      if run[n] < |before.rows| then Add(l, before, run[n]) else before
  }

  /** Each exchange of the run was allowed when it was made: cap and goal were open, copies and pool sufficed. */
  predicate Allowed(l: Limits, start: State, run: seq<nat>) {
    run != [] ==>
      var n := |run| - 1;
      Allowed(l, start, run[..n]) && run[n] < |start.rows| && CanAdd(l, Replay(l, start, run[..n]), run[n])
  }

  /** The exchanges of `run`, all of them allowed, lead to `s`. */
  predicate Reached(l: Limits, start: State, s: State, run: seq<nat>) {
    Allowed(l, start, run) && s == Replay(l, start, run)
  }

  /** What every state satisfies that the exchanges of `run` lead to. */
  ghost predicate Invariant(l: Limits, start: State, s: State, run: seq<nat>) {
    && AllHeld(s.rows)
    && Conserved(s, start.pool)
    && s.trades == SumOf(s.rows, Exchanges) == |run| <= l.cap
    && s.total == SumOf(s.rows, Worth)
    && Reached(l, start, s, run)
  }

  // ----- one attempt -----

  lemma {:induction false} ConsumeTakesDemand(pool: map<string, int>, needs: seq<Need>, lot: int, slug: string)
    requires slug in pool
    ensures Consume(pool, needs, lot)[slug] == pool[slug] - Demand(needs, slug) * lot
  {
    if needs != [] {
      ConsumeTakesDemand(pool, needs[..|needs| - 1], lot, slug);
    }
  }

  lemma {:induction false} DemandOf(needs: seq<Need>, slug: string)
    requires DistinctNeeds(needs)
    ensures Demand(needs, slug) == 0 || exists i :: 0 <= i < |needs| && needs[i] == Need(slug, Demand(needs, slug))
    ensures forall i :: 0 <= i < |needs| ==> needs[i].slug == slug ==> Demand(needs, slug) == needs[i].count
    ensures (forall i :: 0 <= i < |needs| ==> needs[i].slug != slug) ==> Demand(needs, slug) == 0
  {
    if needs != [] {
      DemandOf(needs[..|needs| - 1], slug);
    }
  }

  lemma PoolStaysEnough(pool: map<string, int>, row: Row, slug: string)
    requires Tradable(row) && Enough(pool, row.needs, row.lot) && slug in pool && pool[slug] >= 0
    ensures 0 <= Consume(pool, row.needs, row.lot)[slug] <= pool[slug]
  {
    ConsumeTakesDemand(pool, row.needs, row.lot, slug);
    DemandOf(row.needs, slug);
    if Demand(row.needs, slug) != 0 {
      var i :| 0 <= i < |row.needs| && row.needs[i] == Need(slug, Demand(row.needs, slug));
      assert Left(pool, row.needs[i].slug) >= row.needs[i].count * row.lot;
    }
  }

  lemma NoDemandOutside(pool: map<string, int>, row: Row, slug: string)
    requires Tradable(row) && Enough(pool, row.needs, row.lot) && slug !in pool
    ensures Demand(row.needs, slug) == 0
  {
    DemandOf(row.needs, slug);
    forall i | 0 <= i < |row.needs|
      ensures row.needs[i].slug != slug
    {
      assert Left(pool, row.needs[i].slug) >= row.needs[i].count * row.lot > 0;
    }
  }

  lemma TakeUnits(rows: seq<Row>, i: nat, slug: string)
    requires i < |rows|
    ensures SumOf(rows[i := Take(rows[i])], Units(slug))
         == SumOf(rows, Units(slug)) + Demand(rows[i].needs, slug) * rows[i].lot
  {
    SumUpdate(rows, i, Take(rows[i]), Units(slug));
    var d, q, n := Demand(rows[i].needs, slug), rows[i].quantity, rows[i].lot;
    assert d * (q + n) == d * q + d * n;
  }

  lemma AddConservesSlug(l: Limits, s: State, i: nat, slug: string)
    requires i < |s.rows| && Held(s.rows[i]) && CanAdd(l, s, i)
    requires slug in s.pool ==> s.pool[slug] >= 0
    ensures var next := Add(l, s, i);
            if slug in s.pool then
              next.pool[slug] >= 0
              && next.pool[slug] + SumOf(next.rows, Units(slug)) == s.pool[slug] + SumOf(s.rows, Units(slug))
            else SumOf(next.rows, Units(slug)) == SumOf(s.rows, Units(slug))
  {
    var row := s.rows[i];
    TakeUnits(s.rows, i, slug);
    if slug in s.pool {
      PoolStaysEnough(s.pool, row, slug);
      ConsumeTakesDemand(s.pool, row.needs, row.lot, slug);
    } else {
      NoDemandOutside(s.pool, row, slug);
    }
  }

  lemma AddConserves(l: Limits, s: State, i: nat, pool: map<string, int>)
    requires i < |s.rows| && AllHeld(s.rows) && Conserved(s, pool)
    ensures Conserved(Add(l, s, i), pool)
  {
    if CanAdd(l, s, i) {
      var next := Add(l, s, i);
      forall slug
        ensures slug in pool ==> 0 <= next.pool[slug] && next.pool[slug] + SumOf(next.rows, Units(slug)) == pool[slug]
        ensures slug !in pool ==> SumOf(next.rows, Units(slug)) == 0
      {
        AddConservesSlug(l, s, i, slug);
      }
    }
  }

  lemma TakeHeld(row: Row)
    requires Held(row) && row.quantity + row.lot <= row.sellable
    ensures Held(Take(row))
    ensures Worth(Take(row)) == Worth(row) + row.price * row.lot
  {
    assert (row.trades + 1) * row.lot == row.trades * row.lot + row.lot;
  }

  lemma {:induction false} EachWasAllowed(l: Limits, start: State, run: seq<nat>, k: nat)
    requires Allowed(l, start, run) && k < |run|
    ensures run[k] < |start.rows| && CanAdd(l, Replay(l, start, run[..k]), run[k])
  {
    var n := |run| - 1;
    if k < n {
      assert run[..n][..k] == run[..k];
      EachWasAllowed(l, start, run[..n], k);
    }
  }

  lemma OneMoreExchange(l: Limits, start: State, run: seq<nat>, i: nat)
    requires Allowed(l, start, run) && i < |start.rows| && CanAdd(l, Replay(l, start, run), i)
    ensures Allowed(l, start, run + [i]) && Replay(l, start, run + [i]) == Add(l, Replay(l, start, run), i)
  {
    assert (run + [i])[..|run|] == run;
  }

  lemma AddKeepsInvariant(l: Limits, start: State, s: State, run: seq<nat>, i: nat)
    requires i < |s.rows| && Invariant(l, start, s, run)
    ensures Invariant(l, start, Add(l, s, i), run + AddRun(l, s, i))
  {
    AddConserves(l, s, i, start.pool);
    if CanAdd(l, s, i) {
      TakeHeld(s.rows[i]);
      SumUpdate(s.rows, i, Take(s.rows[i]), Exchanges);
      SumUpdate(s.rows, i, Take(s.rows[i]), Worth);
      OneMoreExchange(l, start, run, i);
    } else {
      Unit(run);
    }
  }

  // ----- every reachable state -----

  lemma {:induction false} RunKeepsInvariant(l: Limits, start: State, run: seq<nat>)
    requires Invariant(l, start, start, []) && Allowed(l, start, run)
    ensures Invariant(l, start, Replay(l, start, run), run)
  {
    if run != [] {
      var n := |run| - 1;
      var init, before := run[..n], Replay(l, start, run[..n]);
      RunKeepsInvariant(l, start, init);
      AddKeepsInvariant(l, start, before, init, run[n]);
      assert init + [run[n]] == run;
    }
  }

  lemma AddReached(l: Limits, start: State, s: State, run: seq<nat>, i: nat)
    requires i < |s.rows| && Reached(l, start, s, run)
    ensures Reached(l, start, Add(l, s, i), run + AddRun(l, s, i))
  {
    if CanAdd(l, s, i) {
      OneMoreExchange(l, start, run, i);
    } else {
      Unit(run);
    }
  }

  lemma {:induction false} RoundReached(l: Limits, start: State, s: State, run: seq<nat>, n: nat)
    requires n <= |s.rows| && Reached(l, start, s, run)
    ensures Reached(l, start, Round(l, s, n), run + RoundRun(l, s, n))
  {
    if n == 0 {
      Unit(run);
    } else {
      var before, first := Round(l, s, n - 1), RoundRun(l, s, n - 1);
      RoundReached(l, start, s, run, n - 1);
      AddReached(l, start, before, run + first, n - 1);
      Assoc(run, first, AddRun(l, before, n - 1));
    }
  }

  lemma {:induction false} ByRoundsReached(l: Limits, start: State, s: State, run: seq<nat>)
    requires Reached(l, start, s, run)
    ensures Reached(l, start, ByRounds(l, s), run + ByRoundsRun(l, s))
    decreases l.cap - s.trades
  {
    var next, made := Round(l, s, |s.rows|), RoundRun(l, s, |s.rows|);
    RoundReached(l, start, s, run, |s.rows|);
    if next.trades != s.trades {
      RoundBelowCap(l, s, |s.rows|);
      ByRoundsReached(l, start, next, run + made);
      Assoc(run, made, ByRoundsRun(l, next));
    }
  }

  lemma {:induction false} FillReached(l: Limits, start: State, s: State, run: seq<nat>, i: nat)
    requires i < |s.rows| && Reached(l, start, s, run)
    ensures Reached(l, start, Fill(l, s, i), run + FillRun(l, s, i))
    decreases l.cap - s.trades
  {
    AddReached(l, start, s, run, i);
    if CanAdd(l, s, i) {
      var next := Add(l, s, i);
      FillReached(l, start, next, run + [i], i);
      Assoc(run, [i], FillRun(l, next, i));
    }
  }

  lemma {:induction false} ByRowsReached(l: Limits, start: State, s: State, run: seq<nat>, n: nat)
    requires n <= |s.rows| && Reached(l, start, s, run)
    ensures Reached(l, start, ByRows(l, s, n), run + ByRowsRun(l, s, n))
  {
    if n == 0 {
      Unit(run);
    } else {
      var before, first := ByRows(l, s, n - 1), ByRowsRun(l, s, n - 1);
      ByRowsReached(l, start, s, run, n - 1);
      FillReached(l, start, before, run + first, n - 1);
      Assoc(run, first, FillRun(l, before, n - 1));
    }
  }

  /** In every mode the exchanges made, in their order, were all allowed and lead to the state at the end. */
  lemma AllocationIsARun(mode: Mode, l: Limits, start: State)
    ensures Reached(l, start, Allocate(mode, l, start), AllocationRun(mode, l, start))
  {
    Unit(AllocationRun(mode, l, start));
    if mode.PerTrade? || mode.Fast? {
      ByRoundsReached(l, start, start, []);
    } else {
      ByRowsReached(l, start, start, [], |start.rows|);
    }
  }

  // ----- a refusal is permanent -----

  /** `t` may follow `s`: rows only grow, and the pool only shrinks. */
  predicate Follows(s: State, t: State) {
    && |t.rows| == |s.rows|
    && (forall i :: 0 <= i < |s.rows| ==>
          t.rows[i] == s.rows[i].(quantity := t.rows[i].quantity, trades := t.rows[i].trades)
          && t.rows[i].quantity >= s.rows[i].quantity)
    && t.pool.Keys == s.pool.Keys
    && (forall slug :: slug in s.pool ==> t.pool[slug] <= s.pool[slug])
    && t.trades >= s.trades
    && t.total >= s.total
  }

  /** What permanence needs of a state. */
  predicate Sound(s: State) {
    AllHeld(s.rows) && forall slug :: slug in s.pool ==> s.pool[slug] >= 0
  }

  lemma AddFollows(l: Limits, s: State, i: nat)
    requires i < |s.rows| && Sound(s)
    ensures Follows(s, Add(l, s, i)) && Sound(Add(l, s, i))
  {
    if CanAdd(l, s, i) {
      var row := s.rows[i];
      TakeHeld(row);
      forall slug | slug in s.pool
        ensures 0 <= Consume(s.pool, row.needs, row.lot)[slug] <= s.pool[slug]
      {
        PoolStaysEnough(s.pool, row, slug);
      }
      assert row.price * row.lot >= 0;
    }
  }

  lemma FollowsTransitive(s: State, t: State, u: State)
    requires Follows(s, t) && Follows(t, u)
    ensures Follows(s, u)
  {
  }

  lemma FollowsOneMore(l: Limits, s: State, t: State, i: nat) returns (u: State)
    requires i < |t.rows| && Sound(t) && Follows(s, t)
    ensures u == Add(l, t, i) && Sound(u) && Follows(s, u) && Follows(u, u)
  {
    u := Add(l, t, i);
    AddFollows(l, t, i);
    FollowsTransitive(s, t, u);
  }

  lemma RefusalIsPermanent(l: Limits, s: State, t: State, i: nat)
    requires i < |s.rows| && Follows(s, t) && !CanAdd(l, s, i)
    ensures !CanAdd(l, t, i)
  {
    var row := s.rows[i];
    assert t.rows[i] == row.(quantity := t.rows[i].quantity, trades := t.rows[i].trades);
    if !Full(l, s) && row.quantity + row.lot <= row.sellable {
      var j :| 0 <= j < |row.needs| && Left(s.pool, row.needs[j].slug) < row.needs[j].count * row.lot;
      assert Left(t.pool, row.needs[j].slug) <= Left(s.pool, row.needs[j].slug);
    }
  }

  /** Along a run rows only grow: they stay what they were apart from quantity and trades. */
  lemma {:induction false} ReplayFollows(l: Limits, start: State, run: seq<nat>)
    requires Sound(start)
    ensures Sound(Replay(l, start, run)) && Follows(start, Replay(l, start, run))
  {
    if run != [] {
      var n := |run| - 1;
      var before := Replay(l, start, run[..n]);
      ReplayFollows(l, start, run[..n]);
      if run[n] < |before.rows| {
        var after := FollowsOneMore(l, start, before, run[n]);
      }
    }
  }

  lemma {:induction false} RoundSound(l: Limits, s: State, n: nat) returns (t: State)
    requires n <= |s.rows| && Sound(s)
    ensures t == Round(l, s, n) && Sound(t)
  {
    t := s;
    if n > 0 {
      var before := RoundSound(l, s, n - 1);
      t := Add(l, before, n - 1);
      AddFollows(l, before, n - 1);
    }
  }

  lemma {:induction false} FillFollows(l: Limits, s: State, i: nat)
    requires i < |s.rows| && Sound(s)
    ensures Follows(s, Fill(l, s, i)) && Sound(Fill(l, s, i)) && !CanAdd(l, Fill(l, s, i), i)
    decreases l.cap - s.trades
  {
    if CanAdd(l, s, i) {
      AddFollows(l, s, i);
      FillFollows(l, Add(l, s, i), i);
      FollowsTransitive(s, Add(l, s, i), Fill(l, s, i));
    }
  }

  // ----- maximality -----

  /** No row can take another lot. */
  predicate Exhausted(l: Limits, s: State) {
    forall i :: 0 <= i < |s.rows| ==> !CanAdd(l, s, i)
  }

  /** A round that adds nothing leaves the state as it was, and refuses every row. */
  lemma {:induction false} IdleRound(l: Limits, s: State, n: nat)
    requires n <= |s.rows| && Round(l, s, n).trades == s.trades
    ensures Round(l, s, n) == s && forall i :: 0 <= i < n ==> !CanAdd(l, s, i)
  {
    if n > 0 {
      IdleRound(l, s, n - 1);
    }
  }

  lemma {:induction false} ByRoundsExhausts(l: Limits, s: State)
    ensures Exhausted(l, ByRounds(l, s))
    decreases l.cap - s.trades
  {
    var next := Round(l, s, |s.rows|);
    if next.trades == s.trades {
      IdleRound(l, s, |s.rows|);
    } else {
      RoundBelowCap(l, s, |s.rows|);
      ByRoundsExhausts(l, next);
    }
  }

  lemma {:induction false} ByRowsExhausts(l: Limits, s: State, n: nat)
    requires n <= |s.rows| && Sound(s)
    ensures Sound(ByRows(l, s, n)) && forall i :: 0 <= i < n ==> !CanAdd(l, ByRows(l, s, n), i)
  {
    if n > 0 {
      var before := ByRows(l, s, n - 1);
      ByRowsExhausts(l, s, n - 1);
      FillFollows(l, before, n - 1);
      forall i | 0 <= i < n - 1
        ensures !CanAdd(l, ByRows(l, s, n), i)
      {
        RefusalIsPermanent(l, before, ByRows(l, s, n), i);
      }
    }
  }

  // ----- round-robin fairness -----

  /** The state before round `p`, counting from zero. */
  function RoundStart(l: Limits, s: State, p: nat): (r: State)
    ensures |r.rows| == |s.rows|
  {
    if p == 0 then s else Round(l, RoundStart(l, s, p - 1), |s.rows|)
  }

  /** The state in round `p` after the first `n` rows had their turn. */
  function Turn(l: Limits, s: State, p: nat, n: nat): (r: State)
    requires n <= |s.rows|
    ensures |r.rows| == |s.rows|
  {
    Round(l, RoundStart(l, s, p), n)
  }

  lemma {:induction false} ByRoundsIsARound(l: Limits, s: State) returns (p: nat)
    ensures ByRounds(l, s) == RoundStart(l, s, p)
    decreases l.cap - s.trades
  {
    var next := Round(l, s, |s.rows|);
    assert RoundStart(l, s, 1) == next by {
      assert RoundStart(l, s, 0) == s;
    }
    if next.trades == s.trades {
      p := 1;
    } else {
      RoundBelowCap(l, s, |s.rows|);
      var q := ByRoundsIsARound(l, next);
      RoundStartShift(l, s, q);
      p := q + 1;
    }
  }

  lemma {:induction false} RoundStartShift(l: Limits, s: State, p: nat)
    ensures RoundStart(l, Round(l, s, |s.rows|), p) == RoundStart(l, s, p + 1)
  {
    if p > 0 {
      RoundStartShift(l, s, p - 1);
    } else {
      assert RoundStart(l, s, 0) == s;
    }
  }

  /** Every row has had its turn `p` or `p + 1` times, or it has been refused for good. */
  predicate InStride(l: Limits, s: State, p: nat, n: nat) {
    forall i :: 0 <= i < |s.rows| ==>
      var turns := if i < n then p + 1 else p;
      s.rows[i].trades <= turns && (s.rows[i].trades < turns ==> !CanAdd(l, s, i))
  }

  /** One turn in stride: the row whose turn it is takes its lot of the round or never takes one again. */
  lemma TurnInStride(l: Limits, before: State, p: nat, i: nat) returns (after: State)
    requires i < |before.rows| && Sound(before) && InStride(l, before, p, i)
    ensures after == Add(l, before, i) && Sound(after) && InStride(l, after, p, i + 1)
  {
    after := Add(l, before, i);
    AddFollows(l, before, i);
    forall j | 0 <= j < |before.rows|
      ensures var turns := if j < i + 1 then p + 1 else p;
              after.rows[j].trades <= turns && (after.rows[j].trades < turns ==> !CanAdd(l, after, j))
    {
      if !CanAdd(l, before, j) {
        RefusalIsPermanent(l, before, after, j);
      }
    }
  }

  lemma {:induction false} RoundInStride(l: Limits, s: State, p: nat, n: nat) returns (after: State)
    requires n <= |s.rows| && Sound(s) && InStride(l, s, p, 0)
    ensures after == Round(l, s, n) && Sound(after) && InStride(l, after, p, n)
  {
    after := s;
    if n > 0 {
      var before := RoundInStride(l, s, p, n - 1);
      after := TurnInStride(l, before, p, n - 1);
      assert Round(l, s, n) == Add(l, Round(l, s, n - 1), n - 1);
    }
  }

  lemma {:induction false} RoundStartInStride(l: Limits, s: State, p: nat)
    requires Sound(s) && forall i :: 0 <= i < |s.rows| ==> s.rows[i].trades == 0
    ensures Sound(RoundStart(l, s, p)) && InStride(l, RoundStart(l, s, p), p, 0)
  {
    if p > 0 {
      var before := RoundStart(l, s, p - 1);
      RoundStartInStride(l, s, p - 1);
      var after := RoundInStride(l, before, p - 1, |s.rows|);
    }
  }

  /** Row `b` lags: `a` is two trades ahead, or ahead although ranked lower. */
  predicate Behind(s: State, a: nat, b: nat)
    requires a < |s.rows| && b < |s.rows|
  {
    s.rows[a].trades >= s.rows[b].trades + 2 || (b < a && s.rows[a].trades > s.rows[b].trades)
  }

  predicate Later(p: nat, n: nat, q: nat, m: nat) {
    p < q || (p == q && n <= m)
  }

  /** Once refused, a row is as it was at every later turn. */
  lemma {:induction false} RefusedStays(l: Limits, s: State, p: nat, n: nat, q: nat, m: nat, b: nat)
    requires Sound(s) && forall i :: 0 <= i < |s.rows| ==> s.rows[i].trades == 0
    requires n <= |s.rows| && m <= |s.rows| && b < |s.rows| && Later(p, n, q, m)
    requires !CanAdd(l, Turn(l, s, p, n), b)
    ensures Turn(l, s, q, m).rows[b] == Turn(l, s, p, n).rows[b] && !CanAdd(l, Turn(l, s, q, m), b)
    decreases q, m
  {
    if p == q && n == m {
    } else if m == 0 {
      TurnWraps(l, s, q);
      RefusedStays(l, s, p, n, q - 1, |s.rows|, b);
    } else {
      RefusedStays(l, s, p, n, q, m - 1, b);
      RoundStartInStride(l, s, q);
      RefusedTurn(l, RoundStart(l, s, q), m, b);
    }
  }

  lemma TurnWraps(l: Limits, s: State, q: nat)
    requires q > 0
    ensures Turn(l, s, q, 0) == Turn(l, s, q - 1, |s.rows|)
  {
  }

  lemma RefusedAttempt(l: Limits, s: State, i: nat, b: nat)
    requires Sound(s) && i < |s.rows| && b < |s.rows| && !CanAdd(l, s, b)
    ensures Add(l, s, i).rows[b] == s.rows[b] && !CanAdd(l, Add(l, s, i), b)
  {
    AddFollows(l, s, i);
    RefusalIsPermanent(l, s, Add(l, s, i), b);
  }

  lemma RefusedTurn(l: Limits, s: State, m: nat, b: nat)
    requires Sound(s) && 0 < m <= |s.rows| && b < |s.rows| && !CanAdd(l, Round(l, s, m - 1), b)
    ensures Round(l, s, m).rows[b] == Round(l, s, m - 1).rows[b] && !CanAdd(l, Round(l, s, m), b)
  {
    var before := RoundSound(l, s, m - 1);
    RefusedAttempt(l, before, m - 1, b);
  }

  /** At any turn, a row that has fallen behind never trades again. */
  lemma BehindForever(l: Limits, s: State, p: nat, n: nat, q: nat, m: nat, a: nat, b: nat)
    requires Sound(s) && forall i :: 0 <= i < |s.rows| ==> s.rows[i].trades == 0
    requires n <= |s.rows| && m <= |s.rows| && a < |s.rows| && b < |s.rows| && Later(p, n, q, m)
    requires Behind(Turn(l, s, p, n), a, b)
    ensures Turn(l, s, q, m).rows[b] == Turn(l, s, p, n).rows[b]
  {
    RoundStartInStride(l, s, p);
    var turned := RoundInStride(l, RoundStart(l, s, p), p, n);
    RefusedStays(l, s, p, n, q, m, b);
  }
}
