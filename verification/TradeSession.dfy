/**
 * The Trade Session allocator of `trade_session.rs`: candidates become ranked rows, and
 * rows take lots from one shared pool of components under a trade cap and a platinum target.
 */
module TradeSession {
  import opened Outcome
  import opened Numbers
  import opened Sorting

  const MAX_PLAN_ITEMS := 50
  const MAX_PER_TRADE := 6
  const MIN_PLATINUM := 5
  const MAX_PLATINUM := 3000
  const LIQUID_VOL := 5.0
  const MAX_SAFE := 9_007_199_254_740_991

  datatype Mode = Fast | PerTrade | Clear | Max

  /** Market figures, zero where the snapshot has none. */
  datatype Market = Market(vol: real, lowSell: real, avg: real, medianNow: real, median90d: real, topBuy: real)

  datatype Part = Part(slug: string, count: real)

  datatype Candidate = Candidate(
    key: seq<nat>,              // the UTF-16 code units of the key, which is what the sort compares
    slug: string,
    name: string,
    owned: real,
    sellable: real,
    subtype: string,            // empty when absent
    itemType: string,
    hold: bool,
    bulk: bool,
    unsupported: bool,          // `supported` given as false
    market: Market,
    components: Option<seq<Part>>)

  datatype Request = Request(candidates: seq<Candidate>, mode: Mode, budget: real, target: Option<real>)

  /** Units of one slug that one copy of a row's item takes from the pool. */
  datatype Need = Need(slug: string, count: int)

  datatype Row = Row(
    candidate: Candidate,
    needs: seq<Need>,
    sellable: int,
    lot: int,                   // `per_trade`
    price: int,                 // `platinum`
    score: seq<real>,
    bid: Option<real>,
    componentLimits: map<string, int>,
    quantity: int,
    trades: int)

  datatype Refusal = Identity | NoCopies | NoPrice | OnHold | Thin

  datatype Exclusion = Exclusion(name: string, reason: Refusal)

  datatype Plan = Plan(
    rows: seq<Row>,
    trades: int,
    total: int,
    excluded: seq<Exclusion>,
    target: Option<real>,
    shortfall: Option<real>)

  // ----- numbers and names -----

  predicate Safe(n: real) {
    n.Floor as real == n && -(MAX_SAFE as real) <= n <= MAX_SAFE as real
  }

  function Ceil(n: real): int {
    -((-n).Floor)
  }

  predicate EndsWith(s: string, suffix: string) {
    |suffix| <= |s| && s[|s| - |suffix|..] == suffix
  }

  function Lower(s: string): string {
    if s == "" then ""
    else [if 'A' <= s[0] <= 'Z' then s[0] - 'A' + 'a' else s[0]] + Lower(s[1..])
  }

  predicate Contains(s: string, word: string) {
    word <= s || (s != "" && Contains(s[1..], word))
  }

  predicate ValidLot(quantity: int, lot: int, bulk: bool) {
    0 < quantity <= MAX_SAFE && 1 <= lot <= MAX_PER_TRADE && quantity % lot == 0 && (bulk || lot == 1)
  }

  // ----- the pool -----

  function Slugs(candidates: seq<Candidate>): (slugs: seq<string>)
    ensures |slugs| == |candidates|
    ensures forall i :: 0 <= i < |slugs| ==> slugs[i] == candidates[i].slug
  {
    if candidates == [] then [] else [candidates[0].slug] + Slugs(candidates[1..])
  }

  /** A loose part that sets may draw on: one plain row owns its slug. */
  predicate Pooled(c: Candidate, counts: multiset<string>) {
    c.components.None? && c.subtype == "" && !EndsWith(c.slug, "_set") && counts[c.slug] == 1
  }

  function Copies(c: Candidate): int {
    if Safe(c.sellable) && c.sellable >= 0.0 then c.sellable.Floor else 0
  }

  function PoolOf(candidates: seq<Candidate>, counts: multiset<string>): map<string, int> {
    if candidates == [] then map[]
    else
      var n := |candidates| - 1;
      var rest := PoolOf(candidates[..n], counts);
      if Pooled(candidates[n], counts) then rest[candidates[n].slug := Copies(candidates[n])] else rest
  }

  // ----- rows -----

  function SumCounts(parts: seq<Part>): real {
    if parts == [] then 0.0 else parts[0].count + SumCounts(parts[1..])
  }

  predicate ValidSet(c: Candidate) {
    && EndsWith(c.slug, "_set")
    && c.components.Some?
    && c.components.value != []
    && (forall i :: 0 <= i < |c.components.value| ==>
          var part := c.components.value[i];
          part.slug != c.slug && Safe(part.count) && part.count > 0.0)
    && SumCounts(c.components.value) <= MAX_PER_TRADE as real
  }

  predicate Supported(c: Candidate, counts: multiset<string>) {
    && !c.unsupported
    && c.subtype == ""
    && (c.components.Some? || EndsWith(c.slug, "_set") ==> ValidSet(c))
    && !Contains(Lower(c.itemType), "riven")
    && counts[c.slug] == 1
  }

  function NonNegative(n: real): real {
    if n > 0.0 then n else 0.0
  }

  /** Why a candidate is left out; the first reason that applies. */
  function Refused(c: Candidate, mode: Mode, counts: multiset<string>, price: int): Option<Refusal> {
    var m := c.market;
    if !Supported(c, counts) then Some(Identity)
    else if !Safe(c.sellable) || c.sellable <= 0.0 || !Safe(c.owned) || c.sellable > c.owned then Some(NoCopies)
    else if !(m.lowSell > 0.0 || m.avg > 0.0 || m.medianNow > 0.0 || m.median90d > 0.0)
            || price < MIN_PLATINUM || price > MAX_PLATINUM then Some(NoPrice)
    else if c.hold && (mode.Fast? || mode.PerTrade?) then Some(OnHold)
    else if (mode.Fast? || mode.Clear?) && NonNegative(m.vol) < LIQUID_VOL then Some(Thin)
    else None
  }

  function StartLot(c: Candidate, mode: Mode, price: int): int
    requires price > 0
  {
    if ValidSet(c) || mode.Fast? || !c.bulk then 1
    else Min(Min(MAX_PER_TRADE, c.sellable.Floor), MAX_PLATINUM / price)
  }

  /** The first lot at or below `lot` that divides `sellable`. */
  function DivisorBelow(sellable: int, lot: int): (d: int)
    requires lot >= 1
    ensures 1 <= d <= lot
    decreases lot
  {
    if lot == 1 || sellable % lot == 0 then lot else DivisorBelow(sellable, lot - 1)
  }

  function Needs(c: Candidate): seq<Need> {
    if c.components.None? then [Need(c.slug, 1)] else NeedsOf(c.components.value)
  }

  function NeedsOf(parts: seq<Part>): (needs: seq<Need>)
    ensures |needs| == |parts|
    ensures forall i :: 0 <= i < |parts| ==> needs[i] == Need(parts[i].slug, parts[i].count.Floor)
  {
    if parts == [] then [] else [Need(parts[0].slug, parts[0].count.Floor)] + NeedsOf(parts[1..])
  }

  function LimitsOf(needs: seq<Need>, pool: map<string, int>): map<string, int> {
    if needs == [] then map[]
    else LimitsOf(needs[1..], pool)[needs[0].slug := if needs[0].slug in pool then pool[needs[0].slug] else 0]
  }

  function Score(c: Candidate, mode: Mode, cap: int, sellable: int, lot: int, price: int, bid: Option<real>): seq<real>
    requires lot >= 1 && price >= 1
  {
    var volume := NonNegative(c.market.vol);
    var weight := if c.hold then 0.6 else 1.0;
    var value := (price * lot) as real;
    match mode
    case Fast =>
      var share := if bid.Some? && bid.value <= price as real then bid.value / price as real else 0.0;
      [volume * (1.0 + share) * weight, price as real]
    case Clear =>
      [(if sellable as real / lot as real <= cap as real then 1.0 else 0.0) * weight, lot as real * weight, volume]
    case Max => [value * Min(cap, sellable / lot) as real * weight, volume]
    case PerTrade => [value * weight, volume]
  }

  /** What every candidate is judged by: nothing here depends on the order of the candidates. */
  datatype Setting = Setting(mode: Mode, cap: int, counts: multiset<string>, pool: map<string, int>, clearing: Market -> real)

  function Judge(c: Candidate, s: Setting): Result<Row, Exclusion> {
    var price := Ceil(s.clearing(c.market));
    var refusal := Refused(c, s.mode, s.counts, price);
    if refusal.Some? then Err(Exclusion(c.name, refusal.value))
    else
      var sellable := c.sellable.Floor;
      var start := StartLot(c, s.mode, price);
      assert start >= 1;
      var lot := if s.mode.Clear? then DivisorBelow(sellable, start) else start;
      var bid := if c.market.topBuy > 0.0 then Some(c.market.topBuy) else None;
      Ok(Row(c, Needs(c), sellable, lot, price, Score(c, s.mode, s.cap, sellable, lot, price, bid), bid,
             LimitsOf(Needs(c), s.pool), 0, 0))
  }

  function Eligible(candidates: seq<Candidate>, s: Setting): seq<Row> {
    if candidates == [] then []
    else
      var n := |candidates| - 1;
      var judged := Judge(candidates[n], s);
      Eligible(candidates[..n], s) + if judged.Ok? then [judged.value] else []
  }

  function Excluded(candidates: seq<Candidate>, s: Setting): seq<Exclusion> {
    if candidates == [] then []
    else
      var n := |candidates| - 1;
      var judged := Judge(candidates[n], s);
      Excluded(candidates[..n], s) + if judged.Err? then [judged.error] else []
  }

  // ----- ranking -----

  /** Lexicographic comparison: -1, 0 or 1. */
  function Compare(a: seq<real>, b: seq<real>): (r: int)
    ensures r in {-1, 0, 1}
  {
    if a == [] then (if b == [] then 0 else -1)
    else if b == [] then 1
    else if a[0] < b[0] then -1
    else if a[0] > b[0] then 1
    else Compare(a[1..], b[1..])
  }

  function AsReals(key: seq<nat>): (r: seq<real>)
    ensures |r| == |key| && forall i :: 0 <= i < |r| ==> r[i] == key[i] as real
  {
    if key == [] then [] else [key[0] as real] + AsReals(key[1..])
  }

  /** `a` is ranked no later than `b`: a higher score first, then the smaller key. */
  predicate RankedFirst(a: Row, b: Row) {
    var byScore := Compare(b.score, a.score);
    byScore < 0 || (byScore == 0 && Compare(AsReals(a.candidate.key), AsReals(b.candidate.key)) <= 0)
  }

  // ----- taking lots -----

  datatype Limits = Limits(cap: int, goal: Option<real>)

  /** What the loops update: the rows, the shared pool, and the plan's totals. */
  datatype State = State(rows: seq<Row>, pool: map<string, int>, trades: int, total: int)

  function Left(pool: map<string, int>, slug: string): int {
    if slug in pool then pool[slug] else 0
  }

  predicate Enough(pool: map<string, int>, needs: seq<Need>, lot: int) {
    forall i :: 0 <= i < |needs| ==> Left(pool, needs[i].slug) >= needs[i].count * lot
  }

  predicate Full(l: Limits, s: State) {
    s.trades >= l.cap || (l.goal.Some? && s.total as real >= l.goal.value)
  }

  predicate CanAdd(l: Limits, s: State, i: nat)
    requires i < |s.rows|
  {
    var row := s.rows[i];
    !Full(l, s) && row.quantity + row.lot <= row.sellable && Enough(s.pool, row.needs, row.lot)
  }

  function Consume(pool: map<string, int>, needs: seq<Need>, lot: int): (r: map<string, int>)
    ensures r.Keys == pool.Keys
  {
    if needs == [] then pool
    else
      var n := |needs| - 1;
      var rest := Consume(pool, needs[..n], lot);
      if needs[n].slug in rest then rest[needs[n].slug := rest[needs[n].slug] - needs[n].count * lot] else rest
  }

  function Take(row: Row): Row {
    row.(quantity := row.quantity + row.lot, trades := row.trades + 1)
  }

  /** One attempt to give row `i` another lot. */
  function Add(l: Limits, s: State, i: nat): (r: State)
    requires i < |s.rows|
    ensures |r.rows| == |s.rows|
  {
    if !CanAdd(l, s, i) then s
    else
      var row := s.rows[i];
      State(s.rows[i := Take(row)], Consume(s.pool, row.needs, row.lot), s.trades + 1, s.total + row.price * row.lot)
  }

  /** The first `n` attempts of a round over the rows. */
  function Round(l: Limits, s: State, n: nat): (r: State)
    requires n <= |s.rows|
    ensures |r.rows| == |s.rows| && r.trades >= s.trades
  {
    if n == 0 then s else Add(l, Round(l, s, n - 1), n - 1)
  }

  /** Rounds until one changes nothing. */
  function ByRounds(l: Limits, s: State): (r: State)
    ensures |r.rows| == |s.rows|
    decreases l.cap - s.trades
  {
    var next := Round(l, s, |s.rows|);
    if next.trades == s.trades then next
    else
      RoundBelowCap(l, s, |s.rows|);
      ByRounds(l, next)
  }

  lemma {:induction false} RoundBelowCap(l: Limits, s: State, n: nat)
    requires n <= |s.rows|
    ensures Round(l, s, n).trades != s.trades ==> s.trades < l.cap
  {
    if n > 0 {
      RoundBelowCap(l, s, n - 1);
    }
  }

  /** Row `i` takes lots until it is refused. */
  function Fill(l: Limits, s: State, i: nat): (r: State)
    requires i < |s.rows|
    ensures |r.rows| == |s.rows|
    decreases l.cap - s.trades
  {
    if CanAdd(l, s, i) then Fill(l, Add(l, s, i), i) else s
  }

  /** The first `n` rows filled one after the other. */
  function ByRows(l: Limits, s: State, n: nat): (r: State)
    requires n <= |s.rows|
    ensures |r.rows| == |s.rows|
  {
    if n == 0 then s else Fill(l, ByRows(l, s, n - 1), n - 1)
  }

  function Allocate(mode: Mode, l: Limits, s: State): State {
    if mode.PerTrade? || mode.Fast? then ByRounds(l, s) else ByRows(l, s, |s.rows|)
  }

  // ----- the exchanges made -----

  /** The exchanges of one attempt, each as the number of its row. */
  function AddRun(l: Limits, s: State, i: nat): seq<nat>
    requires i < |s.rows|
  {
    if CanAdd(l, s, i) then [i] else []
  }

  function RoundRun(l: Limits, s: State, n: nat): seq<nat>
    requires n <= |s.rows|
  {
    if n == 0 then [] else RoundRun(l, s, n - 1) + AddRun(l, Round(l, s, n - 1), n - 1)
  }

  function ByRoundsRun(l: Limits, s: State): seq<nat>
    decreases l.cap - s.trades
  {
    var next := Round(l, s, |s.rows|);
    if next.trades == s.trades then RoundRun(l, s, |s.rows|)
    else
      RoundBelowCap(l, s, |s.rows|);
      RoundRun(l, s, |s.rows|) + ByRoundsRun(l, next)
  }

  function FillRun(l: Limits, s: State, i: nat): seq<nat>
    requires i < |s.rows|
    decreases l.cap - s.trades
  {
    if CanAdd(l, s, i) then [i] + FillRun(l, Add(l, s, i), i) else []
  }

  function ByRowsRun(l: Limits, s: State, n: nat): seq<nat>
    requires n <= |s.rows|
  {
    if n == 0 then [] else ByRowsRun(l, s, n - 1) + FillRun(l, ByRows(l, s, n - 1), n - 1)
  }

  /** All exchanges of an allocation, in the order in which they are made. */
  function AllocationRun(mode: Mode, l: Limits, s: State): seq<nat> {
    if mode.PerTrade? || mode.Fast? then ByRoundsRun(l, s) else ByRowsRun(l, s, |s.rows|)
  }

  // ----- the plan -----

  function Cap(budget: real): (cap: int)
    ensures 0 <= cap <= MAX_PLAN_ITEMS
  {
    if !Safe(budget) || budget <= 0.0 then 0 else Min(budget.Floor, MAX_PLAN_ITEMS)
  }

  function Goal(target: Option<real>): Option<real> {
    if target.Some? && target.value > 0.0 then target else None
  }

  function Emitted(rows: seq<Row>): seq<Row> {
    if rows == [] then []
    else
      var n := |rows| - 1;
      Emitted(rows[..n]) + if rows[n].quantity == 0 then [] else [rows[n]]
  }

  function SettingOf(request: Request, clearing: Market -> real): Setting {
    var counts := multiset(Slugs(request.candidates));
    Setting(request.mode, Cap(request.budget), counts, PoolOf(request.candidates, counts), clearing)
  }

  function LimitsFor(request: Request): Limits {
    Limits(Cap(request.budget), Goal(request.target))
  }

  function Start(request: Request, clearing: Market -> real): State {
    var setting := SettingOf(request, clearing);
    State(Sort(Eligible(request.candidates, setting), RankedFirst), setting.pool, 0, 0)
  }

  function Final(request: Request, clearing: Market -> real): State {
    Allocate(request.mode, LimitsFor(request), Start(request, clearing))
  }

  function FinalRun(request: Request, clearing: Market -> real): seq<nat> {
    AllocationRun(request.mode, LimitsFor(request), Start(request, clearing))
  }

  function Shortfall(goal: Option<real>, total: int): Option<real> {
    if goal.None? then None else Some(NonNegative(goal.value - total as real))
  }

  function Select(request: Request, clearing: Market -> real): Plan {
    var s := Final(request, clearing);
    var goal := Goal(request.target);
    Plan(Emitted(s.rows), s.trades, s.total, Excluded(request.candidates, SettingOf(request, clearing)),
         goal, Shortfall(goal, s.total))
  }
}
