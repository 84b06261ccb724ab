/** Selling a quantity to the buyers on the book (`buyer-alternatives.ts`). */
module Buyers {
  import opened Outcome
  import opened Sorting
  import opened Sequences
  import opened Numbers
  import opened WholeLots

  const MAX_PER_TRADE := 6
  const MAX_SAFE := 9_007_199_254_740_991
  const FRESH_MILLIS := 60_000.0

  /** A number of the source language; anything infinite or not a number is `NotFinite`. */
  datatype Number = Finite(value: real) | NotFinite

  predicate IsSafeInteger(n: Number) {
    n.Finite? && n.value.Floor as real == n.value && -MAX_SAFE <= n.value.Floor <= MAX_SAFE
  }

  datatype Order = Order(id: string, user: string, status: string, quantity: Number, perTrade: Number, platinum: Number)

  /** `orders` is absent when the field is no array; `observed` is the parsed time. */
  datatype Book = Book(orders: Option<seq<Order>>, ownOrdersExcluded: bool, observed: Number)

  datatype Quote = Quote(hasError: bool, book: Option<Book>)

  datatype CompareError = Invalid | Unavailable | Locked | Stale

  datatype Row = Row(order: Order, quantity: nat, value: nat)

  datatype Comparison = Comparison(rows: seq<Row>, covered: nat, uncovered: nat, value: nat, askValue: real, gap: real)

  function Whole(n: Number): int {
    if n.Finite? then n.value.Floor else 0
  }

  function Units(o: Order): int { Whole(o.quantity) }
  function Lot(o: Order): int { Whole(o.perTrade) }
  function Platinum(o: Order): int { Whole(o.platinum) }

  /** The part of the filter that looks at one order. */
  predicate Acceptable(o: Order) {
    && o.id != "" && o.user != "" && (o.status == "online" || o.status == "ingame")
    && IsSafeInteger(o.quantity) && Units(o) > 0
    && IsSafeInteger(o.perTrade) && 1 <= Lot(o) <= MAX_PER_TRADE
    && IsMultiple(Units(o), Lot(o))
    && IsSafeInteger(o.platinum) && Platinum(o) > 0
  }

  /** The filter: acceptable orders of users not seen with one before. */
  function KeepFirst(orders: seq<Order>, seen: set<string>): seq<Order> {
    if orders == [] then []
    else if orders[0].user in seen || !Acceptable(orders[0]) then KeepFirst(orders[1..], seen)
    else [orders[0]] + KeepFirst(orders[1..], seen + {orders[0].user})
  }

  function Price(o: Order): real {
    if Lot(o) == 0 then 0.0 else Platinum(o) as real / Lot(o) as real
  }

  /** The comparison of the sort, with `collate(a, b)` for `a.localeCompare(b) <= 0`. */
  function Before(collate: (string, string) -> bool): (Order, Order) -> bool {
    (a: Order, b: Order) => Price(a) > Price(b) || (Price(a) == Price(b) && collate(a.id, b.id))
  }

  function Eligible(orders: seq<Order>, collate: (string, string) -> bool): seq<Order> {
    Sort(KeepFirst(orders, {}), Before(collate))
  }

  /** The largest number of whole lots of an order within what is left, in units. */
  function Take(o: Order, remaining: nat): nat
    requires Acceptable(o)
  {
    RoundDown(Min(remaining, Units(o)), Lot(o))
  }

  /** What `units` of an order bring in, lot by lot. */
  function Worth(o: Order, units: nat): nat
    requires Acceptable(o)
  {
    Earned(units, Lot(o), Platinum(o))
  }

  predicate AllAcceptable(orders: seq<Order>) {
    forall i :: 0 <= i < |orders| ==> Acceptable(orders[i])
  }

  /** The rows of the fill, in order. */
  function Fill(orders: seq<Order>, remaining: nat): seq<Row>
    requires AllAcceptable(orders)
  {
    if orders == [] then []
    else
      var units := Take(orders[0], remaining);
      var rest := Fill(orders[1..], remaining - units);
      if units == 0 then rest else [Row(orders[0], units, Worth(orders[0], units))] + rest
  }

  function Quantities(rows: seq<Row>): nat {
    if rows == [] then 0 else rows[0].quantity + Quantities(rows[1..])
  }

  function Values(rows: seq<Row>): nat {
    if rows == [] then 0 else rows[0].value + Values(rows[1..])
  }

  function Refusal(quote: Option<Quote>, quantity: Number, ask: Number, now: Number): Option<CompareError> {
    if !IsSafeInteger(quantity) || Whole(quantity) <= 0 || !ask.Finite? || ask.value <= 0.0 then Some(Invalid)
    else if quote.None? || quote.value.hasError || quote.value.book.None? || quote.value.book.value.orders.None?
            || !quote.value.book.value.observed.Finite? then Some(Unavailable)
    else
      var book := quote.value.book.value;
      if !book.ownOrdersExcluded then Some(Locked)
      else if !now.Finite? || now.value < book.observed.value || now.value - book.observed.value >= FRESH_MILLIS then Some(Stale)
      else None
  }

  function Offers(quote: Option<Quote>): seq<Order> {
    if quote.Some? && quote.value.book.Some? && quote.value.book.value.orders.Some?
    then quote.value.book.value.orders.value else []
  }

  lemma {:induction false} KeptAcceptable(orders: seq<Order>, seen: set<string>)
    ensures AllAcceptable(KeepFirst(orders, seen))
  {
    if orders != [] {
      KeptAcceptable(orders[1..], seen);
      KeptAcceptable(orders[1..], seen + {orders[0].user});
    }
  }

  lemma EligibleAcceptable(orders: seq<Order>, collate: (string, string) -> bool)
    ensures AllAcceptable(Eligible(orders, collate))
  {
    KeptAcceptable(orders, {});
    var kept, sorted := KeepFirst(orders, {}), Eligible(orders, collate);
    forall i | 0 <= i < |sorted|
      ensures Acceptable(sorted[i])
    {
      assert sorted[i] in multiset(sorted);
      assert sorted[i] in kept;
    }
  }

  /** The checks of the filter on one order, with its remainder. */
  method IsAcceptable(o: Order) returns (yes: bool)
    ensures yes == Acceptable(o)
  {
    if o.id == "" || o.user == "" || !(o.status == "online" || o.status == "ingame")
      || !IsSafeInteger(o.quantity) || Units(o) <= 0
      || !IsSafeInteger(o.perTrade) || Lot(o) < 1 || Lot(o) > MAX_PER_TRADE
    {
      return false;
    }
    RemainderTellsMultiples(Units(o), Lot(o));
    return Units(o) % Lot(o) == 0 && IsSafeInteger(o.platinum) && Platinum(o) > 0;
  }

  /** The filter, with its set of users seen. */
  method FilterOrders(orders: seq<Order>) returns (kept: seq<Order>)
    ensures kept == KeepFirst(orders, {})
  {
    var seen: set<string> := {};
    kept := [];
    for i := 0 to |orders|
      invariant KeepFirst(orders, {}) == kept + KeepFirst(orders[i..], seen)
    {
      var order := orders[i];
      var accepted := IsAcceptable(order);
      ghost var tail := orders[i..];
      assert tail[1..] == orders[i + 1..];
      if order.user !in seen && accepted {
        seen := seen + {order.user};
        kept := kept + [order];
      }
    }
  }

  /** The units in the source's own arithmetic. */
  function UnitsTaken(o: Order, remaining: nat): (units: nat)
    requires Acceptable(o)
    ensures units == Take(o, remaining)
  {
    var most := Min(remaining, Units(o));
    DivisionRoundsDown(most, Lot(o));
    most / Lot(o) * Lot(o)
  }

  function ValueTaken(o: Order, units: nat): (value: nat)
    requires Acceptable(o)
    ensures value == Worth(o, units)
  {
    EarnedByDivision(units, Lot(o), Platinum(o));
    units / Lot(o) * Platinum(o)
  }

  lemma FillStep(orders: seq<Order>, remaining: nat)
    requires AllAcceptable(orders) && orders != []
    ensures var units, rest := Take(orders[0], remaining), orders[1..];
            && (units == 0 ==> Fill(orders, remaining) == Fill(rest, remaining))
            && (units != 0 ==> Fill(orders, remaining)
                               == [Row(orders[0], units, Worth(orders[0], units))] + Fill(rest, remaining - units))
  {
  }

  lemma FillRest(orders: seq<Order>, first: Order, rest: seq<Order>, remaining: nat, units: nat, all: seq<Row>)
    returns (next: seq<Row>)
    requires AllAcceptable(orders) && orders != [] && orders[0] == first && orders[1..] == rest
    requires units == Take(first, remaining) && all == Fill(orders, remaining)
    ensures AllAcceptable(rest) && next == Fill(rest, remaining - units)
    ensures all == if units == 0 then next else [Row(first, units, Worth(first, units))] + next
  {
    FillStep(orders, remaining);
    next := Fill(rest, remaining - units);
  }

  /** The loop over the eligible orders. */
  method FillOrders(eligible: seq<Order>, quantity: nat) returns (rows: seq<Row>, remaining: nat)
    requires AllAcceptable(eligible)
    ensures rows == Fill(eligible, quantity)
    ensures Quantities(rows) + remaining == quantity
  {
    remaining := quantity;
    rows := [];
    ghost var whole, more := Fill(eligible, quantity), Fill(eligible, quantity);
    assert eligible[0..] == eligible;
    for i := 0 to |eligible|
      invariant more == Fill(eligible[i..], remaining)
      invariant whole == rows + more
      invariant Quantities(rows) + remaining == quantity
    {
      var order := eligible[i];
      ghost var tail, rest := eligible[i..], eligible[i + 1..];
      assert tail[0] == order && tail[1..] == rest;
      var units := UnitsTaken(order, remaining);
      ghost var next := FillRest(tail, order, rest, remaining, units, more);
      if units != 0 {
        var row := Row(order, units, ValueTaken(order, units));
        RowsGrow(rows, row);
        Assoc(rows, [row], next);
        rows := rows + [row];
        remaining := remaining - units;
      }
      more := next;
    }
  }

  /** What is returned for the eligible orders and the quantity. */
  predicate Compares(c: Comparison, quantity: nat, ask: real) {
    && c.covered == Quantities(c.rows) && c.covered + c.uncovered == quantity
    && c.value == Values(c.rows)
    && c.askValue == c.covered as real * ask && c.gap == c.askValue - c.value as real
  }

  function Summary(rows: seq<Row>, remaining: nat, quantity: nat, ask: real): (c: Comparison)
    requires Quantities(rows) + remaining == quantity
    ensures c.rows == rows && Compares(c, quantity, ask)
  {
    var covered := quantity - remaining;
    var value := Values(rows);
    var askValue := covered as real * ask;
    Comparison(rows, covered, remaining, value, askValue, askValue - value as real)
  }

  /** The comparison of a quantity with the orders eligible for it. */
  predicate Sold(c: Comparison, orders: seq<Order>, quantity: nat, ask: real) {
    AllAcceptable(orders) && c.rows == Fill(orders, quantity) && Compares(c, quantity, ask)
  }

  /** `compareBuyers` */
  method CompareBuyers(quote: Option<Quote>, quantity: Number, ask: Number, now: Number, collate: (string, string) -> bool)
    returns (r: Result<Comparison, CompareError>)
    ensures r.Err? <==> Refusal(quote, quantity, ask, now).Some?
    ensures r.Err? ==> Refusal(quote, quantity, ask, now) == Some(r.error)
    ensures r.Ok? ==>
              && Whole(quantity) > 0 && ask.Finite?
              && Sold(r.value, Eligible(Offers(quote), collate), Whole(quantity), ask.value)
  {
    var refusal := Refusal(quote, quantity, ask, now);
    if refusal.Some? {
      return Err(refusal.value);
    }
    var kept := FilterOrders(Offers(quote));
    var eligible := Sort(kept, Before(collate));
    EligibleAcceptable(Offers(quote), collate);
    var rows, remaining := FillOrders(eligible, Whole(quantity));
    return Ok(Summary(rows, remaining, Whole(quantity), ask.value));
  }

  lemma {:induction false} RowsGrow(rows: seq<Row>, row: Row)
    ensures Quantities(rows + [row]) == Quantities(rows) + row.quantity
    ensures Values(rows + [row]) == Values(rows) + row.value
  {
    if rows != [] {
      assert (rows + [row])[1..] == rows[1..] + [row];
      RowsGrow(rows[1..], row);
    }
  }

  // ----- who is eligible -----

  /** The first acceptable order of its user. */
  predicate FirstOfUser(orders: seq<Order>, i: nat)
    requires i < |orders|
  {
    Acceptable(orders[i]) && forall j :: 0 <= j < i ==> !(Acceptable(orders[j]) && orders[j].user == orders[i].user)
  }

  /** The orders at the indices of `from..` that are the first acceptable one of their user. */
  function Firsts(orders: seq<Order>, from: nat): seq<Order>
    requires from <= |orders|
    decreases |orders| - from
  {
    if from == |orders| then []
    else if FirstOfUser(orders, from) then [orders[from]] + Firsts(orders, from + 1)
    else Firsts(orders, from + 1)
  }

  ghost predicate SeenUpTo(orders: seq<Order>, n: nat, seen: set<string>)
    requires n <= |orders|
  {
    forall user :: user in seen <==> exists j :: 0 <= j < n && Acceptable(orders[j]) && orders[j].user == user
  }

  /** The filter keeps exactly each user's first acceptable order, in the order of the book. */
  lemma {:induction false} KeepsFirstOfUser(orders: seq<Order>, n: nat, seen: set<string>)
    requires n <= |orders| && SeenUpTo(orders, n, seen)
    ensures KeepFirst(orders[n..], seen) == Firsts(orders, n)
    decreases |orders| - n
  {
    if n < |orders| {
      var next := if orders[n].user in seen || !Acceptable(orders[n]) then seen else seen + {orders[n].user};
      assert orders[n..][1..] == orders[n + 1..];
      KeepsFirstOfUser(orders, n + 1, next);
    }
  }

  // ----- the fill against every other allocation -----

  /** An order as an offer: its price for each unit is the price of a lot divided by the size. */
  function OfferOf(o: Order): (r: Offer)
    requires Acceptable(o)
    ensures Sound(r)
  {
    PriceNotNegative(Platinum(o) as real, Lot(o) as real);
    Offer(Units(o), Lot(o), Price(o))
  }

  lemma PriceNotNegative(platinum: real, lot: real)
    requires platinum >= 0.0 && lot > 0.0
    ensures platinum / lot >= 0.0
  {
  }

  function OffersOf(orders: seq<Order>): (r: seq<Offer>)
    requires AllAcceptable(orders)
    ensures |r| == |orders| && forall i :: 0 <= i < |orders| ==> r[i] == OfferOf(orders[i])
    ensures AllSound(r)
  {
    seq(|orders|, i requires 0 <= i < |orders| => OfferOf(orders[i]))
  }

  lemma OffersTail(orders: seq<Order>)
    requires AllAcceptable(orders) && orders != []
    ensures OffersOf(orders)[1..] == OffersOf(orders[1..])
  {
  }

  /** The rows of an allocation: those orders that have a share. */
  function RowsOf(orders: seq<Order>, alloc: seq<nat>): seq<Row>
    requires AllAcceptable(orders) && |alloc| == |orders|
  {
    if orders == [] then []
    else if alloc[0] == 0 then RowsOf(orders[1..], alloc[1..])
    else [Row(orders[0], alloc[0], Worth(orders[0], alloc[0]))] + RowsOf(orders[1..], alloc[1..])
  }

  /** One order more in front, for the fill and for the rows of an allocation. */
  lemma FillMatchesRows(orders: seq<Order>, tail: seq<Order>, quantity: nat, units: nat, rest: seq<nat>, alloc: seq<nat>)
    requires AllAcceptable(orders) && orders != [] && tail == orders[1..] && |rest| == |tail|
    requires units == Take(orders[0], quantity) && alloc == [units] + rest && units <= quantity
    requires Fill(tail, quantity - units) == RowsOf(tail, rest)
    ensures Fill(orders, quantity) == RowsOf(orders, alloc)
  {
    assert alloc[1..] == rest;
    FillStep(orders, quantity);
    RowsStep(orders, alloc);
  }

  lemma GreedyOfOrders(orders: seq<Order>, tail: seq<Order>, quantity: nat, units: nat, rest: seq<nat>, alloc: seq<nat>)
    requires AllAcceptable(orders) && orders != [] && tail == orders[1..]
    requires units == Take(orders[0], quantity) && alloc == [units] + rest && units <= quantity
    requires rest == Greedy(OffersOf(tail), quantity - units)
    ensures alloc == Greedy(OffersOf(orders), quantity)
  {
    OffersTail(orders);
    GreedyStep(OffersOf(orders), OffersOf(tail), quantity, units, rest);
  }

  /** The fill's rows are those of the greedy allocation. */
  lemma {:induction false} FillIsGreedy(orders: seq<Order>, quantity: nat) returns (alloc: seq<nat>)
    requires AllAcceptable(orders)
    ensures alloc == Greedy(OffersOf(orders), quantity)
    ensures Fill(orders, quantity) == RowsOf(orders, alloc)
  {
    if orders == [] {
      alloc := [];
    } else {
      var tail, units := orders[1..], Take(orders[0], quantity);
      var rest := FillIsGreedy(tail, quantity - units);
      alloc := [units] + rest;
      GreedyOfOrders(orders, tail, quantity, units, rest, alloc);
      FillMatchesRows(orders, tail, quantity, units, rest, alloc);
    }
  }

  lemma RowsStep(orders: seq<Order>, alloc: seq<nat>)
    requires AllAcceptable(orders) && |alloc| == |orders| && orders != []
    ensures var rest := RowsOf(orders[1..], alloc[1..]);
            && (alloc[0] == 0 ==> RowsOf(orders, alloc) == rest)
            && (alloc[0] != 0 ==> RowsOf(orders, alloc) == [Row(orders[0], alloc[0], Worth(orders[0], alloc[0]))] + rest)
  {
  }

  lemma {:induction false} RowsQuantities(orders: seq<Order>, alloc: seq<nat>)
    requires AllAcceptable(orders) && |alloc| == |orders|
    ensures Quantities(RowsOf(orders, alloc)) == Sum(alloc)
  {
    if orders != [] {
      RowsQuantities(orders[1..], alloc[1..]);
    }
  }

  /** The platinum of the rows is the value of the allocation at unit prices. */
  lemma {:induction false} RowsValues(orders: seq<Order>, alloc: seq<nat>, quantity: nat)
    requires AllAcceptable(orders) && IsAllocation(OffersOf(orders), alloc, quantity)
    ensures Values(RowsOf(orders, alloc)) as real == Value(OffersOf(orders), alloc)
  {
    if orders != [] {
      var o, offers := orders[0], OffersOf(orders);
      OffersTail(orders);
      assert IsAllocation(offers[1..], alloc[1..], quantity - alloc[0]);
      RowsValues(orders[1..], alloc[1..], quantity - alloc[0]);
      assert IsMultiple(alloc[0], offers[0].lot);
      LotsCost(alloc[0], Lot(o), Platinum(o));
    }
  }

  /** Eligible orders come best price first. */
  lemma EligibleByPrice(book: seq<Order>, collate: (string, string) -> bool)
    requires TotalPreorder(collate) && AllAcceptable(Eligible(book, collate))
    ensures ByPrice(OffersOf(Eligible(book, collate)))
  {
    var le := Before(collate);
    assert forall a, b :: le(a, b) <==> Price(a) > Price(b) || (Price(a) == Price(b) && collate(a.id, b.id));
    SortSorted(KeepFirst(book, {}), le);
    var sorted := Eligible(book, collate);
    forall i, j | 0 <= i < j < |sorted|
      ensures Price(sorted[i]) >= Price(sorted[j])
    {
      assert le(sorted[i], sorted[j]);
    }
  }

  lemma FillIsAllocation(orders: seq<Order>, quantity: nat) returns (shares: seq<nat>)
    requires AllAcceptable(orders)
    ensures IsAllocation(OffersOf(orders), shares, quantity) && Fill(orders, quantity) == RowsOf(orders, shares)
    ensures shares == Greedy(OffersOf(orders), quantity)
    ensures forall i :: 0 <= i < |orders| ==>
              shares[i] == Units(orders[i]) || Quantities(Fill(orders, quantity)) + Lot(orders[i]) > quantity
  {
    GreedyIsAllocation(OffersOf(orders), quantity);
    GreedyIsMaximal(OffersOf(orders), quantity);
    shares := FillIsGreedy(orders, quantity);
    RowsQuantities(orders, shares);
  }

  lemma RowsCompare(orders: seq<Order>, quantity: nat, alloc: seq<nat>, slack: real)
    requires AllAcceptable(orders) && IsAllocation(OffersOf(orders), alloc, quantity)
    requires Value(OffersOf(orders), alloc) <= Value(OffersOf(orders), Greedy(OffersOf(orders), quantity)) + slack
    ensures Values(RowsOf(orders, alloc)) as real <= Values(Fill(orders, quantity)) as real + slack
  {
    var shares := FillIsAllocation(orders, quantity);
    RowsValues(orders, alloc, quantity);
    RowsValues(orders, shares, quantity);
  }

  lemma FillIsBestForOneLot(orders: seq<Order>, quantity: nat, lot: nat, alloc: seq<nat>)
    requires AllAcceptable(orders) && ByPrice(OffersOf(orders))
    requires lot > 0 && forall i :: 0 <= i < |orders| ==> Lot(orders[i]) == lot
    requires IsAllocation(OffersOf(orders), alloc, quantity)
    ensures Values(RowsOf(orders, alloc)) <= Values(Fill(orders, quantity))
  {
    GreedyIsBestForOneLot(OffersOf(orders), quantity, lot, alloc);
    RowsCompare(orders, quantity, alloc, 0.0);
  }

  lemma FillIsNearlyBest(orders: seq<Order>, quantity: nat, alloc: seq<nat>)
    requires AllAcceptable(orders) && ByPrice(OffersOf(orders)) && orders != []
    requires IsAllocation(OffersOf(orders), alloc, quantity)
    ensures Values(RowsOf(orders, alloc)) as real
         <= Values(Fill(orders, quantity)) as real + Pay(MAX_PER_TRADE - 1, OfferOf(orders[0]).price)
  {
    GreedyIsNearlyBest(OffersOf(orders), quantity, MAX_PER_TRADE, alloc);
    RowsCompare(orders, quantity, alloc, Pay(MAX_PER_TRADE - 1, OfferOf(orders[0]).price));
  }

  // ----- what the comparison of a book promises -----

  /** The comparison takes whole lots within each order, and no order could take one more lot of what is left. */
  lemma ComparisonIsMaximal(orders: seq<Order>, quantity: nat, ask: real, c: Comparison) returns (shares: seq<nat>)
    requires Sold(c, orders, quantity, ask)
    ensures IsAllocation(OffersOf(orders), shares, quantity) && c.rows == RowsOf(orders, shares)
    ensures forall i :: 0 <= i < |orders| ==> shares[i] == Units(orders[i]) || c.uncovered < Lot(orders[i])
  {
    shares := FillIsAllocation(orders, quantity);
  }

  /** When all eligible orders of a book share a lot size, no allocation of whole lots brings in more. */
  lemma ComparisonIsBestForOneLot(book: seq<Order>, collate: (string, string) -> bool, orders: seq<Order>, quantity: nat,
                                  ask: real, c: Comparison, lot: nat, alloc: seq<nat>)
    requires TotalPreorder(collate) && orders == Eligible(book, collate) && Sold(c, orders, quantity, ask)
    requires lot > 0 && forall i :: 0 <= i < |orders| ==> Lot(orders[i]) == lot
    requires IsAllocation(OffersOf(orders), alloc, quantity)
    ensures Values(RowsOf(orders, alloc)) <= c.value
  {
    EligibleByPrice(book, collate);
    FillIsBestForOneLot(orders, quantity, lot, alloc);
  }

  /** With any lots, the comparison of a book falls short of the best by at most five units at the best price. */
  lemma ComparisonIsNearlyBest(book: seq<Order>, collate: (string, string) -> bool, orders: seq<Order>, quantity: nat,
                               ask: real, c: Comparison, alloc: seq<nat>)
    requires TotalPreorder(collate) && orders == Eligible(book, collate) && Sold(c, orders, quantity, ask)
    requires IsAllocation(OffersOf(orders), alloc, quantity) && orders != []
    ensures Values(RowsOf(orders, alloc)) as real <= c.value as real + Pay(MAX_PER_TRADE - 1, OfferOf(orders[0]).price)
  {
    EligibleByPrice(book, collate);
    FillIsNearlyBest(orders, quantity, alloc);
  }

  function FiveLot(): Order {
    Order("a", "u", "online", Finite(5.0), Finite(5.0), Finite(50.0))
  }

  function SixLot(): Order {
    Order("b", "v", "online", Finite(6.0), Finite(6.0), Finite(54.0))
  }

  lemma LotsAreAcceptable()
    ensures Acceptable(FiveLot()) && Units(FiveLot()) == 5 && Lot(FiveLot()) == 5 && Platinum(FiveLot()) == 50
    ensures Acceptable(SixLot()) && Units(SixLot()) == 6 && Lot(SixLot()) == 6 && Platinum(SixLot()) == 54
    ensures Price(FiveLot()) == 10.0 && Price(SixLot()) == 9.0
  {
    assert IsMultiple(5, 5) && IsMultiple(6, 6);
  }

  lemma BothLotsEligible(collate: (string, string) -> bool)
    ensures Eligible([FiveLot(), SixLot()], collate) == [FiveLot(), SixLot()]
  {
    LotsAreAcceptable();
    var book, le := [FiveLot(), SixLot()], Before(collate);
    assert book[1..] == [SixLot()] && [SixLot()][1..] == [];
    assert KeepFirst([SixLot()], {"u"}) == [SixLot()];
    assert KeepFirst(book, {}) == book;
    assert le(FiveLot(), SixLot());
    assert Sort([SixLot()], le) == [SixLot()];
  }

  lemma OneLotEarns(o: Order)
    requires Acceptable(o)
    ensures Worth(o, Lot(o)) == Platinum(o)
  {
    assert Earned(0, Lot(o), Platinum(o)) == 0;
  }

  /** Two orders of one lot each: the fill takes the first, and what is left is too little for the second. */
  lemma FirstLotOnly(a: Order, b: Order, quantity: nat)
    requires Acceptable(a) && Acceptable(b) && Units(a) == Lot(a) <= quantity && quantity - Lot(a) < Lot(b) == Units(b)
    ensures AllAcceptable([a, b]) && Values(Fill([a, b], quantity)) == Platinum(a)
  {
    var orders, left := [a, b], quantity - Lot(a);
    RoundDownOfMultiple(Lot(a), Lot(a));
    OneLotEarns(a);
    FillStep(orders, quantity);
    assert orders[1..] == [b];
    FillStep([b], left);
    assert [b][1..] == [] && Fill([], left) == [];
    var row := Row(a, Lot(a), Platinum(a));
    assert Fill(orders, quantity) == [row] + [] == [row];
    assert [row][1..] == [];
  }

  /** The other allocation: nothing for the first, its lot for the second. */
  lemma SecondLotOnly(a: Order, b: Order, quantity: nat)
    requires Acceptable(a) && Acceptable(b) && Units(b) == Lot(b) <= quantity
    ensures AllAcceptable([a, b]) && IsAllocation(OffersOf([a, b]), [0, Lot(b)], quantity)
    ensures Values(RowsOf([a, b], [0, Lot(b)])) == Platinum(b)
  {
    var orders, alloc: seq<nat> := [a, b], [0, Lot(b)];
    OneLotEarns(b);
    RowsStep(orders, alloc);
    assert orders[1..] == [b] && alloc[1..] == [Lot(b)];
    RowsStep([b], [Lot(b)]);
    assert [b][1..] == [] && [Lot(b)][1..] == [] && RowsOf([], []) == [];
    var row := Row(b, Lot(b), Platinum(b));
    assert RowsOf(orders, alloc) == [row] + [] == [row];
    assert [row][1..] == [];
    assert Sum([Lot(b)]) == Lot(b) + Sum([]);
    assert Sum(alloc) == 0 + Sum(alloc[1..]);
  }

  /** Lots of five and six with six to sell: the five at the better price go first, the six would bring in more. */
  lemma MixedLotsCanLose(collate: (string, string) -> bool, ask: real, c: Comparison)
    requires Sold(c, Eligible([FiveLot(), SixLot()], collate), 6, ask)
    ensures AllAcceptable([FiveLot(), SixLot()]) && IsAllocation(OffersOf([FiveLot(), SixLot()]), [0, 6], 6)
    ensures c.value == 50 && Values(RowsOf([FiveLot(), SixLot()], [0, 6])) == 54
  {
    LotsAreAcceptable();
    BothLotsEligible(collate);
    FirstLotOnly(FiveLot(), SixLot(), 6);
    SecondLotOnly(FiveLot(), SixLot(), 6);
  }
}
