/** What the ranking puts first, and in which order the ranked rows are served. */
module TradeSessionRanking {
  import opened Outcome
  import opened Numbers
  import opened Sorting
  import opened Sequences
  import opened TradeSession
  import opened TradeSessionProofs
  import opened TradeSessionPlan
  import opened TradeSessionOrder

  // ----- what a row is ranked by -----

  /** Hold advice takes two fifths off. */
  function Advised(c: Candidate, x: real): real {
    if c.hold then 0.6 * x else x
  }

  predicate IsVolume(c: Candidate, x: real) {
    if c.market.vol <= 0.0 then x == 0.0 else x == c.market.vol
  }

  /** `n` exchanges of the row's lot are as many as the stack and the cap allow. */
  predicate MostExchanges(row: Row, cap: int, n: int) {
    && 0 <= n <= cap && n * row.lot <= row.sellable
    && (n == cap || (n + 1) * row.lot > row.sellable)
  }

  /**
   * The figures a mode ranks by. Fast: the volume, up to doubled by a bid up to the price, then the price. Clear:
   * whether the stack clears within the cap, then the lot, then the volume. Max: the platinum the stack can bring
   * in within the cap, then the volume. PerTrade: the platinum of an exchange, then the volume.
   */
  ghost predicate Figures(mode: Mode, cap: int, row: Row, score: seq<real>) {
    var c := row.candidate;
    match mode
    case Fast =>
      && |score| == 2 && score[1] == row.price as real
      && exists volume :: IsVolume(c, volume)
           && score[0] * row.price as real
              == Advised(c, volume) * (if 0.0 < c.market.topBuy <= row.price as real then row.price as real + c.market.topBuy
                                       else row.price as real)
    case Clear =>
      && |score| == 3 && IsVolume(c, score[2]) && score[1] == Advised(c, row.lot as real)
      && score[0] == Advised(c, if row.sellable <= cap * row.lot then 1.0 else 0.0)
    case Max =>
      && |score| == 2 && IsVolume(c, score[1])
      && exists n :: MostExchanges(row, cap, n) && score[0] == Advised(c, (row.price * row.lot * n) as real)
    case PerTrade =>
      && |score| == 2 && IsVolume(c, score[1])
      && score[0] == Advised(c, (row.price * row.lot) as real)
  }

  lemma DividesInto(n: int, lot: int, cap: int)
    requires lot >= 1
    ensures n as real / lot as real <= cap as real <==> n <= cap * lot
  {
    var q := n as real / lot as real;
    assert q * lot as real == n as real;
    assert (cap * lot) as real == cap as real * lot as real;
    if q <= cap as real {
      assert q * lot as real <= cap as real * lot as real;
    } else {
      assert q * lot as real > cap as real * lot as real;
    }
  }

  lemma ManyExchanges(row: Row, cap: int, n: int)
    requires row.lot >= 1 && row.sellable >= 0 && cap >= 0
    requires n == Min(cap, row.sellable / row.lot)
    ensures MostExchanges(row, cap, n)
  {
    var q := row.sellable / row.lot;
    assert row.sellable == q * row.lot + row.sellable % row.lot;
    assert 0 <= row.sellable % row.lot < row.lot;
    assert (q + 1) * row.lot == q * row.lot + row.lot;
    if n < q {
      assert (q - n) * row.lot >= 0;
      assert n * row.lot == q * row.lot - (q - n) * row.lot;
    }
  }

  lemma BidShare(volume: real, bid: real, price: real, weight: real)
    requires price > 0.0
    ensures volume * (1.0 + bid / price) * weight * price == volume * weight * (price + bid)
  {
    var share := bid / price;
    assert share * price == bid;
    assert (1.0 + share) * price == price + bid;
    assert volume * (1.0 + share) * weight * price == volume * weight * ((1.0 + share) * price);
  }

  lemma FastFigures(c: Candidate, cap: int, row: Row, bid: Option<real>, score: seq<real>)
    requires row.lot >= 1 && row.price >= 1 && row.candidate == c
    requires bid == if c.market.topBuy > 0.0 then Some(c.market.topBuy) else None
    requires score == Score(c, Fast, cap, row.sellable, row.lot, row.price, bid)
    ensures Figures(Fast, cap, row, score)
  {
    var volume, weight, p := NonNegative(c.market.vol), if c.hold then 0.6 else 1.0, row.price as real;
    assert IsVolume(c, volume);
    var share := if bid.Some? && bid.value <= p then bid.value else 0.0;
    BidShare(volume, share, p, weight);
    assert share / p == if bid.Some? && bid.value <= p then bid.value / p else 0.0;
    assert Advised(c, volume) == volume * weight;
  }

  lemma MaxScore(c: Candidate, cap: int, row: Row, bid: Option<real>, score: seq<real>)
    requires row.lot >= 1 && row.price >= 1 && score == Score(c, Max, cap, row.sellable, row.lot, row.price, bid)
    ensures |score| == 2 && score[1] == NonNegative(c.market.vol)
    ensures score[0] == (row.price * row.lot * Min(cap, row.sellable / row.lot)) as real * if c.hold then 0.6 else 1.0
  {
    CastProduct(row.price * row.lot, Min(cap, row.sellable / row.lot));
  }

  lemma MaxFigures(c: Candidate, cap: int, row: Row, bid: Option<real>, score: seq<real>)
    requires row.lot >= 1 && row.price >= 1 && row.sellable >= 0 && cap >= 0 && row.candidate == c
    requires score == Score(c, Max, cap, row.sellable, row.lot, row.price, bid)
    ensures Figures(Max, cap, row, score)
  {
    MaxScore(c, cap, row, bid, score);
    MaxIs(c, cap, row, score);
  }

  lemma MaxIs(c: Candidate, cap: int, row: Row, score: seq<real>)
    requires row.lot >= 1 && row.sellable >= 0 && cap >= 0 && row.candidate == c
    requires |score| == 2 && score[1] == NonNegative(c.market.vol)
    requires score[0] == (row.price * row.lot * Min(cap, row.sellable / row.lot)) as real * if c.hold then 0.6 else 1.0
    ensures Figures(Max, cap, row, score)
  {
    var n := Min(cap, row.sellable / row.lot);
    ManyExchanges(row, cap, n);
    var all := (row.price * row.lot * n) as real;
    assert score[0] == Advised(c, all);
  }

  lemma CastProduct(a: int, b: int)
    ensures (a * b) as real == a as real * b as real
  {
  }

  lemma ClearFigures(c: Candidate, cap: int, row: Row, bid: Option<real>, score: seq<real>)
    requires row.lot >= 1 && row.price >= 1 && row.candidate == c
    requires score == Score(c, Clear, cap, row.sellable, row.lot, row.price, bid)
    ensures Figures(Clear, cap, row, score)
  {
    DividesInto(row.sellable, row.lot, cap);
  }

  lemma PerTradeFigures(c: Candidate, cap: int, row: Row, bid: Option<real>, score: seq<real>)
    requires row.lot >= 1 && row.price >= 1 && row.candidate == c
    requires score == Score(c, PerTrade, cap, row.sellable, row.lot, row.price, bid)
    ensures Figures(PerTrade, cap, row, score)
  {
  }

  lemma ScoreFigures(c: Candidate, mode: Mode, cap: int, row: Row, bid: Option<real>, score: seq<real>)
    requires row.lot >= 1 && row.price >= 1 && row.sellable >= 0 && cap >= 0 && row.candidate == c
    requires bid == if c.market.topBuy > 0.0 then Some(c.market.topBuy) else None
    requires score == Score(c, mode, cap, row.sellable, row.lot, row.price, bid)
    ensures Figures(mode, cap, row, score)
  {
    match mode
    case Fast => FastFigures(c, cap, row, bid, score);
    case Clear => ClearFigures(c, cap, row, bid, score);
    case Max => MaxFigures(c, cap, row, bid, score);
    case PerTrade => PerTradeFigures(c, cap, row, bid, score);
  }

  // ----- who comes first -----

  predicate LargerAt(a: seq<real>, b: seq<real>, k: nat) {
    k < |a| && k < |b| && a[..k] == b[..k] && a[k] > b[k]
  }

  predicate SmallerAt(a: seq<nat>, b: seq<nat>, k: nat) {
    k < |a| && k < |b| && a[..k] == b[..k] && a[k] < b[k]
  }

  /** A key before or equal to another, by code units. */
  ghost predicate KeyUpTo(a: seq<nat>, b: seq<nat>) {
    a <= b || exists k: nat :: SmallerAt(a, b, k)
  }

  /** At the first figure in which they differ `a` has the larger one, or they have the same and the keys decide. */
  ghost predicate Leads(a: Row, b: Row) {
    || (exists k: nat :: LargerAt(a.score, b.score, k))
    || (a.score == b.score && KeyUpTo(a.candidate.key, b.candidate.key))
  }

  /** Rows ranked by as many figures. */
  predicate SameFigures(a: Row, b: Row) {
    |a.score| == |b.score|
  }

  lemma {:induction false} CompareAbove(a: seq<real>, b: seq<real>) returns (k: nat)
    requires Compare(a, b) > 0 && |a| == |b|
    ensures LargerAt(a, b, k)
  {
    if a[0] > b[0] {
      k := 0;
    } else {
      var rest := CompareAbove(a[1..], b[1..]);
      k := rest + 1;
      assert a == [a[0]] + a[1..] && b == [b[0]] + b[1..];
      assert a[..k] == [a[0]] + a[1..][..rest] && b[..k] == [b[0]] + b[1..][..rest];
    }
  }

  lemma SmallerLater(a: seq<nat>, b: seq<nat>, k: nat)
    requires a != [] && b != [] && a[0] == b[0] && SmallerAt(a[1..], b[1..], k)
    ensures SmallerAt(a, b, k + 1)
  {
    assert a[..k + 1] == [a[0]] + a[1..][..k] && b[..k + 1] == [b[0]] + b[1..][..k];
  }

  lemma {:induction false} CompareKeys(a: seq<nat>, b: seq<nat>)
    requires Compare(AsReals(a), AsReals(b)) <= 0
    ensures KeyUpTo(a, b)
  {
    if a != [] && b != [] {
      if a[0] < b[0] {
        assert SmallerAt(a, b, 0);
      } else {
        CompareKeys(a[1..], b[1..]);
        assert a == [a[0]] + a[1..] && b == [b[0]] + b[1..];
        if k: nat :| SmallerAt(a[1..], b[1..], k) {
          SmallerLater(a, b, k);
        }
      }
    }
  }

  lemma RankedLeads(a: Row, b: Row)
    requires RankedFirst(a, b) && SameFigures(a, b)
    ensures Leads(a, b)
  {
    CompareFlips(b.score, a.score);
    if Compare(b.score, a.score) < 0 {
      var k := CompareAbove(a.score, b.score);
    } else {
      CompareEqual(b.score, a.score);
      CompareKeys(a.candidate.key, b.candidate.key);
    }
  }

  /** What a row of the request is ranked by, in its own terms. */
  ghost predicate RankedBy(request: Request, row: Row) {
    Figures(request.mode, Cap(request.budget), row, row.score)
  }

  lemma JudgedFigures(c: Candidate, s: Setting)
    requires WellFormed(c) && Judge(c, s).Ok? && s.cap >= 0
    ensures Figures(s.mode, s.cap, Judge(c, s).value, Judge(c, s).value.score)
  {
    var row := Judge(c, s).value;
    JudgedTradable(c, s);
    ScoreFigures(c, s.mode, s.cap, row, row.bid, row.score);
  }

  /**
   * The ranked rows of a request: each has the figures of its mode, and of two rows the one that leads stands
   * before the other.
   */
  lemma StartIsRanked(request: Request, clearing: Market -> real, rows: seq<Row>)
    requires WellFormedRequest(request) && rows == Start(request, clearing).rows
    ensures forall i :: 0 <= i < |rows| ==> RankedBy(request, rows[i])
    ensures forall i, j :: 0 <= i < j < |rows| ==> Leads(rows[i], rows[j])
    ensures Sorted(rows, RankedFirst)
  {
    var setting := SettingOf(request, clearing);
    StartRows(request, clearing);
    forall i | 0 <= i < |rows|
      ensures RankedBy(request, rows[i])
    {
      assert Untouched(rows[i], request, setting);
      var k :| 0 <= k < |request.candidates| && request.candidates[k] == rows[i].candidate;
      JudgedFigures(rows[i].candidate, setting);
    }
    RankingIsTotalPreorder();
    SortSorted(Eligible(request.candidates, setting), RankedFirst);
    forall i, j | 0 <= i < j < |rows|
      ensures Leads(rows[i], rows[j])
    {
      assert RankedBy(request, rows[i]) && RankedBy(request, rows[j]);
      RankedLeads(rows[i], rows[j]);
    }
  }

  // ----- who is served next -----

  /** No row before `i` can take a lot. */
  predicate NoneBefore(l: Limits, s: State, i: nat) {
    forall j :: 0 <= j < i && j < |s.rows| ==> !CanAdd(l, s, j)
  }

  /** Every exchange goes to the first row that can take a lot when it is made. */
  predicate InOrder(l: Limits, start: State, run: seq<nat>) {
    run != [] ==>
      var n := |run| - 1;
      InOrder(l, start, run[..n]) && NoneBefore(l, Replay(l, start, run[..n]), run[n])
  }

  /** Row `j` comes after the row of the last exchange and before row `i`, going round. */
  predicate Between(run: seq<nat>, j: nat, i: nat) {
    if run == [] then j < i
    else if run[|run| - 1] < i then run[|run| - 1] < j < i
    else run[|run| - 1] < j || j < i
  }

  predicate NoneSkipped(l: Limits, s: State, run: seq<nat>, i: nat) {
    forall j :: 0 <= j < |s.rows| && Between(run, j, i) ==> !CanAdd(l, s, j)
  }

  /** Every exchange goes to the next row, going round from the one served last, that can take a lot when it is made. */
  predicate InTurn(l: Limits, start: State, run: seq<nat>) {
    run != [] ==>
      var n := |run| - 1;
      InTurn(l, start, run[..n]) && NoneSkipped(l, Replay(l, start, run[..n]), run[..n], run[n])
  }

  /** Where a loop stands: the run so far led to `s`. */
  predicate At(l: Limits, start: State, s: State, run: seq<nat>) {
    s == Replay(l, start, run) && |s.rows| == |start.rows| && Sound(s)
  }

  lemma ServeOnce(l: Limits, start: State, s: State, run: seq<nat>, i: nat) returns (after: State, longer: seq<nat>)
    requires At(l, start, s, run) && i < |s.rows| && CanAdd(l, s, i)
    ensures after == Add(l, s, i) && longer == run + [i] && At(l, start, after, longer)
    ensures longer[..|run|] == run && longer[|run|] == i
  {
    after, longer := Add(l, s, i), run + [i];
    assert longer[..|run|] == run;
    AddFollows(l, s, i);
  }

  lemma {:induction false} FillServes(l: Limits, start: State, s: State, run: seq<nat>, i: nat)
    returns (after: State, made: seq<nat>, longer: seq<nat>)
    requires At(l, start, s, run) && i < |s.rows| && InOrder(l, start, run) && NoneBefore(l, s, i)
    ensures after == Fill(l, s, i) && made == FillRun(l, s, i) && longer == run + made
    ensures At(l, start, after, longer) && InOrder(l, start, longer) && NoneBefore(l, after, i + 1)
    decreases l.cap - s.trades
  {
    if !CanAdd(l, s, i) {
      after, made, longer := s, [], run;
      Unit(run);
    } else {
      var next, more := ServeOnce(l, start, s, run, i);
      StaysRefused(l, s, next, i, i);
      var rest;
      after, rest, longer := FillServes(l, start, next, more, i);
      made := [i] + rest;
      Assoc(run, [i], rest);
    }
  }

  /** Rows that were refused stay so after one more exchange. */
  lemma StaysRefused(l: Limits, s: State, next: State, i: nat, n: nat)
    requires i < |s.rows| && Sound(s) && next == Add(l, s, i) && NoneBefore(l, s, n)
    ensures NoneBefore(l, next, n)
  {
    AddFollows(l, s, i);
    forall j | 0 <= j < n && j < |s.rows|
      ensures !CanAdd(l, next, j)
    {
      RefusalIsPermanent(l, s, next, j);
    }
  }

  lemma RowsStep(l: Limits, s: State, n: nat, before: State, first: seq<nat>)
    requires 0 < n <= |s.rows| && before == ByRows(l, s, n - 1) && first == ByRowsRun(l, s, n - 1)
    ensures ByRows(l, s, n) == Fill(l, before, n - 1) && ByRowsRun(l, s, n) == first + FillRun(l, before, n - 1)
  {
  }

  lemma {:induction false} RowsServe(l: Limits, start: State, n: nat)
    returns (after: State, made: seq<nat>)
    requires Sound(start) && n <= |start.rows|
    ensures after == ByRows(l, start, n) && made == ByRowsRun(l, start, n)
    ensures At(l, start, after, made) && InOrder(l, start, made) && NoneBefore(l, after, n)
  {
    if n == 0 {
      return start, [];
    }
    var before, first := RowsServe(l, start, n - 1);
    RowsStep(l, start, n, before, first);
    var last;
    after, last, made := FillServes(l, start, before, first, n - 1);
  }

  /** Where a round stands behind row `i`: the run so far was in turn, and skipped nobody who could take a lot. */
  predicate Served(l: Limits, start: State, run: seq<nat>, i: nat) {
    Sound(Replay(l, start, run)) && InTurn(l, start, run) && NoneSkipped(l, Replay(l, start, run), run, i)
  }

  /** The attempt of row `i`. */
  lemma AttemptServes(l: Limits, start: State, run: seq<nat>, i: nat, all: seq<nat>)
    requires i < |start.rows| && Served(l, start, run, i) && all == run + AddRun(l, Replay(l, start, run), i)
    ensures Served(l, start, all, i + 1)
  {
    var s := Replay(l, start, run);
    if CanAdd(l, s, i) {
      var after, longer := ServeOnce(l, start, s, run, i);
    } else {
      Unit(run);
    }
  }

  lemma {:induction false} RoundServes(l: Limits, start: State, s: State, run: seq<nat>, n: nat) returns (all: seq<nat>)
    requires n <= |s.rows| && Reached(l, start, s, run) && Served(l, start, run, 0)
    ensures all == run + RoundRun(l, s, n) && Served(l, start, all, n)
  {
    all := run;
    if n == 0 {
      Unit(run);
    } else {
      var so := RoundServes(l, start, s, run, n - 1);
      RoundReached(l, start, s, run, n - 1);
      all := TurnIs(l, start, s, run, n, so);
      AttemptServes(l, start, so, n - 1, all);
    }
  }

  lemma TurnIs(l: Limits, start: State, s: State, run: seq<nat>, n: nat, so: seq<nat>) returns (all: seq<nat>)
    requires 0 < n <= |s.rows| && so == run + RoundRun(l, s, n - 1)
    requires Round(l, s, n - 1) == Replay(l, start, so)
    ensures all == run + RoundRun(l, s, n) && all == so + AddRun(l, Replay(l, start, so), n - 1)
  {
    all := run + RoundRun(l, s, n);
    Assoc(run, RoundRun(l, s, n - 1), AddRun(l, Round(l, s, n - 1), n - 1));
  }

  lemma {:induction false} RoundsServe(l: Limits, start: State, s: State, run: seq<nat>)
    requires Reached(l, start, s, run) && Served(l, start, run, 0)
    ensures InTurn(l, start, run + ByRoundsRun(l, s))
    decreases l.cap - s.trades
  {
    var next, made := Round(l, s, |s.rows|), RoundRun(l, s, |s.rows|);
    var all := RoundServes(l, start, s, run, |s.rows|);
    RoundReached(l, start, s, run, |s.rows|);
    if next.trades != s.trades {
      RoundBelowCap(l, s, |s.rows|);
      RoundGives(l, s, |s.rows|);
      RoundWraps(l, start, all);
      RoundsServe(l, start, next, all);
      Assoc(run, made, ByRoundsRun(l, next));
    }
  }

  /** Behind the last row the round starts again with the first. */
  lemma RoundWraps(l: Limits, start: State, run: seq<nat>)
    requires run != [] && Served(l, start, run, |start.rows|)
    ensures Served(l, start, run, 0)
  {
  }

  lemma {:induction false} RoundGives(l: Limits, s: State, n: nat)
    requires n <= |s.rows|
    ensures Round(l, s, n).trades != s.trades ==> RoundRun(l, s, n) != []
  {
    if n > 0 {
      RoundGives(l, s, n - 1);
    }
  }

  /** The exchanges of the plan are made in the order of the ranking: in Clear and Max row by row, in Fast and PerTrade round by round. */
  lemma ServedByRank(request: Request, clearing: Market -> real)
    requires WellFormedRequest(request)
    ensures var l, start, run := LimitsFor(request), Start(request, clearing), FinalRun(request, clearing);
            && (if request.mode.PerTrade? || request.mode.Fast? then InTurn(l, start, run) else InOrder(l, start, run))
            && Exhausted(l, Replay(l, start, run))
  {
    var l, start := LimitsFor(request), Start(request, clearing);
    StartInvariant(request, clearing);
    AllocateExhausts(request.mode, l, start);
    AllocationIsARun(request.mode, l, start);
    if request.mode.PerTrade? || request.mode.Fast? {
      RoundsServe(l, start, start, []);
      Unit(ByRoundsRun(l, start));
    } else {
      var after, made := RowsServe(l, start, |start.rows|);
    }
  }

  /** The first sale of any plan goes to the row that leads all others that could be sold at the start. */
  lemma FirstSaleIsBest(request: Request, clearing: Market -> real, j: nat)
    requires WellFormedRequest(request) && j < |Start(request, clearing).rows|
    requires CanAdd(LimitsFor(request), Start(request, clearing), j)
    ensures var rows, run := Start(request, clearing).rows, FinalRun(request, clearing);
            run != [] && run[0] < |rows| && (run[0] == j || Leads(rows[run[0]], rows[j]))
  {
    var l, start, run := LimitsFor(request), Start(request, clearing), FinalRun(request, clearing);
    StartIsRanked(request, clearing, start.rows);
    ServedByRank(request, clearing);
    AllocationIsARun(request.mode, l, start);
    if run != [] {
      EachWasAllowed(l, start, run, 0);
      if request.mode.PerTrade? || request.mode.Fast? {
        FirstInTurn(l, start, run);
      } else {
        FirstInOrder(l, start, run);
      }
    }
  }

  lemma {:induction false} FirstInOrder(l: Limits, start: State, run: seq<nat>)
    requires InOrder(l, start, run) && run != []
    ensures NoneBefore(l, start, run[0])
  {
    if |run| > 1 {
      FirstInOrder(l, start, run[..|run| - 1]);
    } else {
      assert run[..0] == [];
    }
  }

  lemma {:induction false} FirstInTurn(l: Limits, start: State, run: seq<nat>)
    requires InTurn(l, start, run) && run != []
    ensures NoneBefore(l, start, run[0])
  {
    if |run| > 1 {
      FirstInTurn(l, start, run[..|run| - 1]);
    } else {
      assert run[..0] == [];
      assert Replay(l, start, run[..0]) == start;
    }
  }

  // ----- the rows of the plan -----

  lemma {:induction false} EmittedSorted(rows: seq<Row>)
    requires Sorted(rows, RankedFirst)
    ensures Sorted(Emitted(rows), RankedFirst)
  {
    if rows != [] {
      var n := |rows| - 1;
      EmittedSorted(rows[..n]);
      EmittedAre(rows[..n]);
      var first := Emitted(rows[..n]);
      forall i | 0 <= i < |first|
        ensures RankedFirst(first[i], rows[n])
      {
        assert first[i] in first;
        assert first[i] in rows[..n];
      }
    }
  }

  /** What is taken does not move a row. */
  lemma TakingKeepsRanks(start: State, s: State)
    requires Follows(start, s) && Sorted(start.rows, RankedFirst)
    ensures Sorted(s.rows, RankedFirst)
    ensures forall i :: 0 <= i < |s.rows| ==> s.rows[i].score == start.rows[i].score
  {
    forall i, j | 0 <= i < j < |s.rows|
      ensures RankedFirst(s.rows[i], s.rows[j])
    {
      assert RankedFirst(start.rows[i], start.rows[j]);
    }
  }

  lemma AlikeFigures(request: Request, a: Row, b: Row)
    requires RankedBy(request, a) && RankedBy(request, b)
    ensures SameFigures(a, b)
  {
  }

  lemma EmittedLead(rows: seq<Row>)
    requires Sorted(rows, RankedFirst) && forall i, j :: 0 <= i < |rows| && 0 <= j < |rows| ==> SameFigures(rows[i], rows[j])
    ensures forall i, j :: 0 <= i < j < |Emitted(rows)| ==> Leads(Emitted(rows)[i], Emitted(rows)[j])
  {
    EmittedSorted(rows);
    EmittedAre(rows);
    var listed := Emitted(rows);
    forall i, j | 0 <= i < j < |listed|
      ensures Leads(listed[i], listed[j])
    {
      assert listed[i] in rows && listed[j] in rows;
      RankedLeads(listed[i], listed[j]);
    }
  }

  /** The plan lists its rows in the order of the ranking. */
  lemma PlanIsRanked(request: Request, clearing: Market -> real)
    requires WellFormedRequest(request)
    ensures var rows := Select(request, clearing).rows;
            forall i, j :: 0 <= i < j < |rows| ==> Leads(rows[i], rows[j])
  {
    var l, start, s := LimitsFor(request), Start(request, clearing), Final(request, clearing);
    var run := FinalInvariant(request, clearing);
    StartInvariant(request, clearing);
    StartIsRanked(request, clearing, start.rows);
    ReplayFollows(l, start, run);
    TakingKeepsRanks(start, s);
    forall i, j | 0 <= i < |s.rows| && 0 <= j < |s.rows|
      ensures SameFigures(s.rows[i], s.rows[j])
    {
      AlikeFigures(request, start.rows[i], start.rows[j]);
    }
    EmittedLead(s.rows);
  }
}
