/** The allocator as it runs: a pool, rows and totals updated in place by nested loops. */
module TradeSessionRun {
  import opened Outcome
  import opened Sorting
  import opened Sequences
  import opened TradeSession
  import opened TradeSessionPlan

  class Allocation {
    const limits: Limits
    var rows: seq<Row>
    var available: map<string, int>
    var trades: int
    var total: int
    ghost var made: seq<nat>        // the row of each exchange, in the order of the exchanges

    constructor (limits: Limits, rows: seq<Row>, available: map<string, int>)
      ensures this.limits == limits && Now() == State(rows, available, 0, 0) && made == []
    {
      this.limits := limits;
      this.rows := rows;
      this.available := available;
      trades, total := 0, 0;
      made := [];
    }

    function Now(): State
      reads this
    {
      State(rows, available, trades, total)
    }

    method TakeFromPool(needs: seq<Need>, lot: int)
      modifies this`available
      ensures available == Consume(old(available), needs, lot)
    {
      for n := 0 to |needs|
        invariant available == Consume(old(available), needs[..n], lot)
      {
        var need := needs[n];
        assert needs[..n + 1][..n] == needs[..n];
        if need.slug in available {
          available := available[need.slug := available[need.slug] - need.count * lot];
        }
      }
      assert needs[..|needs|] == needs;
    }

    method TryAdd(i: nat) returns (added: bool)
      requires i < |rows|
      modifies this
      ensures Now() == Add(limits, old(Now()), i)
      ensures added == CanAdd(limits, old(Now()), i)
      ensures made == old(made) + if added then [i] else []
    {
      var row := rows[i];
      if trades >= limits.cap || (limits.goal.Some? && total as real >= limits.goal.value)
        || row.quantity + row.lot > row.sellable || !Enough(available, row.needs, row.lot) {
        return false;
      }
      TakeFromPool(row.needs, row.lot);
      row := row.(quantity := row.quantity + row.lot);
      row := row.(trades := row.trades + 1);
      rows := rows[i := row];
      trades := trades + 1;
      total := total + row.price * row.lot;
      made := made + [i];
      added := true;
    }

    /** PerTrade and Fast: one lot for each row in turn, until a round changes nothing. */
    method AllocateByRounds()
      modifies this
      ensures Now() == ByRounds(limits, old(Now()))
      ensures made == old(made) + ByRoundsRun(limits, old(Now()))
    {
      while true
        invariant ByRounds(limits, Now()) == ByRounds(limits, old(Now()))
        invariant made + ByRoundsRun(limits, Now()) == old(made) + ByRoundsRun(limits, old(Now()))
        decreases limits.cap - trades
      {
        ghost var start, first := Now(), made;
        var changed := false;
        Unit(first);
        for i := 0 to |rows|
          invariant |rows| == |start.rows|
          invariant Now() == Round(limits, start, i) && made == first + RoundRun(limits, start, i)
          invariant changed <==> trades > start.trades
        {
          Assoc(first, RoundRun(limits, start, i), AddRun(limits, Now(), i));
          var added := TryAdd(i);
          changed := changed || added;
        }
        if !changed {
          break;
        }
        RoundBelowCap(limits, start, |start.rows|);
        Assoc(first, RoundRun(limits, start, |start.rows|), ByRoundsRun(limits, Now()));
      }
    }

    /** Clear and Max: each row takes all it can before the next. */
    method AllocateByRows()
      modifies this
      ensures Now() == ByRows(limits, old(Now()), |old(rows)|)
      ensures made == old(made) + ByRowsRun(limits, old(Now()), |old(rows)|)
    {
      Unit(made);
      for i := 0 to |rows|
        invariant |rows| == |old(rows)|
        invariant Now() == ByRows(limits, old(Now()), i) && made == old(made) + ByRowsRun(limits, old(Now()), i)
      {
        ghost var start, first := Now(), made;
        var added := true;
        while added
          invariant |rows| == |old(rows)|
          invariant Fill(limits, Now(), i) == Fill(limits, start, i)
          invariant made + FillRun(limits, Now(), i) == first + FillRun(limits, start, i)
          invariant !added ==> !CanAdd(limits, Now(), i)
          decreases limits.cap - trades, added
        {
          ghost var before := made;
          added := TryAdd(i);
          if added {
            Assoc(before, [i], FillRun(limits, Now(), i));
          } else {
            Unit(before);
          }
        }
        Unit(made);
        Assoc(old(made), ByRowsRun(limits, old(Now()), i), FillRun(limits, start, i));
      }
    }
  }

  /** `while sellable % lot != 0 { lot -= 1 }`: the largest lot that empties the stack. */
  method ClearingLot(sellable: int, start: int) returns (lot: int)
    requires start >= 1
    ensures lot == DivisorBelow(sellable, start)
  {
    lot := start;
    while sellable % lot != 0
      invariant lot >= 1 && DivisorBelow(sellable, lot) == DivisorBelow(sellable, start)
      decreases lot
    {
      DivisorStep(sellable, lot);
      lot := lot - 1;
    }
  }

  lemma DivisorStep(sellable: int, lot: int)
    requires lot >= 1 && sellable % lot != 0
    ensures lot > 1 && DivisorBelow(sellable, lot) == DivisorBelow(sellable, lot - 1)
  {
    assert sellable % 1 == 0;
  }

  method CountSlugs(candidates: seq<Candidate>) returns (counts: multiset<string>)
    ensures counts == multiset(Slugs(candidates))
  {
    counts := multiset{};
    ghost var slugs := Slugs(candidates);
    for i := 0 to |candidates|
      invariant counts == multiset(slugs[..i])
    {
      assert slugs[..i + 1] == slugs[..i] + [slugs[i]];
      counts := counts + multiset{candidates[i].slug};
    }
    assert slugs[..|candidates|] == slugs;
  }

  method FillPool(candidates: seq<Candidate>, counts: multiset<string>) returns (available: map<string, int>)
    ensures available == PoolOf(candidates, counts)
  {
    available := map[];
    for i := 0 to |candidates|
      invariant available == PoolOf(candidates[..i], counts)
    {
      assert candidates[..i + 1][..i] == candidates[..i];
      if Pooled(candidates[i], counts) {
        available := available[candidates[i].slug := Copies(candidates[i])];
      }
    }
    assert candidates[..|candidates|] == candidates;
  }

  /** The body of the loop over the candidates. */
  method JudgeCandidate(c: Candidate, s: Setting) returns (judged: Result<Row, Exclusion>)
    ensures judged == Judge(c, s)
  {
    var price := Ceil(s.clearing(c.market));
    var refusal := Refused(c, s.mode, s.counts, price);
    if refusal.Some? {
      return Err(Exclusion(c.name, refusal.value));
    }
    var sellable, lot := c.sellable.Floor, StartLot(c, s.mode, price);
    if s.mode.Clear? {
      lot := ClearingLot(sellable, lot);
    }
    var bid := if c.market.topBuy > 0.0 then Some(c.market.topBuy) else None;
    var score := Score(c, s.mode, s.cap, sellable, lot, price, bid);
    return Ok(Row(c, Needs(c), sellable, lot, price, score, bid, LimitsOf(Needs(c), s.pool), 0, 0));
  }

  method JudgeAll(candidates: seq<Candidate>, setting: Setting)
    returns (eligible: seq<Row>, excluded: seq<Exclusion>)
    ensures eligible == Eligible(candidates, setting)
    ensures excluded == Excluded(candidates, setting)
  {
    eligible, excluded := [], [];
    for i := 0 to |candidates|
      invariant eligible == Eligible(candidates[..i], setting)
      invariant excluded == Excluded(candidates[..i], setting)
    {
      assert candidates[..i + 1][..i] == candidates[..i];
      var judged := JudgeCandidate(candidates[i], setting);
      if judged.Err? {
        excluded := excluded + [judged.error];
        continue;
      }
      eligible := eligible + [judged.value];
    }
    assert candidates[..|candidates|] == candidates;
  }

  method Emit(rows: seq<Row>) returns (listed: seq<Row>)
    ensures listed == Emitted(rows)
  {
    listed := [];
    for i := 0 to |rows|
      invariant listed == Emitted(rows[..i])
    {
      assert rows[..i + 1][..i] == rows[..i];
      if rows[i].quantity == 0 {
        continue;
      }
      listed := listed + [rows[i]];
    }
    assert rows[..|rows|] == rows;
  }

  /** `select_session`. */
  method SelectSession(request: Request, clearing: Market -> real) returns (plan: Plan, ghost run: seq<nat>)
    ensures plan == Select(request, clearing) && run == FinalRun(request, clearing)
    ensures WellFormedRequest(request) ==>
              && MadeBy(plan, LimitsFor(request), Start(request, clearing), run)
              && (run != [] ==> NeededLast(plan, Start(request, clearing), run[|run| - 1]))
  {
    var cap, goal := Cap(request.budget), Goal(request.target);
    var counts := CountSlugs(request.candidates);
    var available := FillPool(request.candidates, counts);
    var setting := Setting(request.mode, cap, counts, available, clearing);
    var eligible, excluded := JudgeAll(request.candidates, setting);
    var allocation := new Allocation(Limits(cap, goal), Sort(eligible, RankedFirst), available);
    if request.mode.PerTrade? || request.mode.Fast? {
      allocation.AllocateByRounds();
    } else {
      allocation.AllocateByRows();
    }
    var listed := Emit(allocation.rows);
    run := allocation.made;
    Unit(run);
    plan := Plan(listed, allocation.trades, allocation.total, excluded, goal, Shortfall(goal, allocation.total));
    if WellFormedRequest(request) {
      ghost var promised := PlanKeepsItsPromises(request, clearing);
    }
  }
}
