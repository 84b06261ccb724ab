/** Which orders a comparison counts, why it is refused, and what its rows are. */
module BuyersMeaning {
  import opened Outcome
  import opened Places
  import opened Sorting
  import opened WholeLots
  import opened Buyers

  /** The number is this whole one, within the range that floats hold exactly. */
  predicate Is(n: Number, k: int) {
    n == Finite(k as real) && -9007199254740991 <= k <= 9007199254740991
  }

  lemma WholeMeans(n: Number)
    ensures IsSafeInteger(n) <==> exists k :: Is(n, k)
    ensures forall k :: Is(n, k) ==> Buyers.Whole(n) == k
  {
    if IsSafeInteger(n) {
      assert Is(n, n.value.Floor);
    }
    forall k | Is(n, k)
      ensures Buyers.Whole(n) == k
    {
      assert (k as real).Floor == k;
    }
  }

  /** A user who is there buys `units`, in lots of `lot` at `platinum` for each lot. */
  predicate Buys(o: Order, units: int, lot: int, platinum: int) {
    && o.id != "" && o.user != "" && o.status in {"online", "ingame"}
    && Is(o.quantity, units) && Is(o.perTrade, lot) && Is(o.platinum, platinum)
    && units > 0 && 1 <= lot <= 6 && platinum > 0 && units % lot == 0
  }

  lemma AcceptableMeans(o: Order)
    ensures Acceptable(o) <==> Buys(o, Units(o), Lot(o), Platinum(o))
    ensures forall units, lot, platinum :: Buys(o, units, lot, platinum) ==> units == Units(o) && lot == Lot(o) && platinum == Platinum(o)
  {
    WholeMeans(o.quantity);
    WholeMeans(o.perTrade);
    WholeMeans(o.platinum);
    if 1 <= Lot(o) <= 6 && Units(o) >= 0 {
      RemainderTellsMultiples(Units(o), Lot(o));
    }
  }

  // ----- who is compared -----

  /** The first order of its user that buys anything. */
  ghost predicate FirstBuy(book: seq<Order>, i: nat) {
    && i < |book| && (exists units, lot, platinum :: Buys(book[i], units, lot, platinum))
    && forall j, units, lot, platinum :: 0 <= j < i && book[j].user == book[i].user ==> !Buys(book[j], units, lot, platinum)
  }

  lemma FirstMeans(book: seq<Order>, i: nat)
    requires i < |book|
    ensures FirstOfUser(book, i) <==> FirstBuy(book, i)
  {
    forall j | 0 <= j <= i
      ensures Acceptable(book[j]) <==> exists units, lot, platinum :: Buys(book[j], units, lot, platinum)
    {
      AcceptableMeans(book[j]);
      if Acceptable(book[j]) {
        assert Buys(book[j], Units(book[j]), Lot(book[j]), Platinum(book[j]));
      }
    }
  }

  /** `a` pays more for each unit than `b`, or as much and its id comes first. */
  predicate Ahead(a: Order, b: Order, collate: (string, string) -> bool) {
    || Platinum(a) * Lot(b) > Platinum(b) * Lot(a)
    || (Platinum(a) * Lot(b) == Platinum(b) * Lot(a) && collate(a.id, b.id))
  }

  lemma PriceOrder(a: Order, b: Order)
    requires Lot(a) > 0 && Lot(b) > 0
    ensures Price(a) > Price(b) <==> Platinum(a) * Lot(b) > Platinum(b) * Lot(a)
    ensures Price(a) == Price(b) <==> Platinum(a) * Lot(b) == Platinum(b) * Lot(a)
  {
    var x, y, m, n := Price(a), Price(b), Lot(a) as real, Lot(b) as real;
    assert x * m == Platinum(a) as real && y * n == Platinum(b) as real;
    assert (Platinum(a) * Lot(b)) as real == x * m * n && (Platinum(b) * Lot(a)) as real == y * n * m;
    assert m * n > 0.0;
    Cancel(x, y, m * n);
  }

  lemma Cancel(x: real, y: real, k: real)
    requires k > 0.0
    ensures x > y <==> x * k > y * k
    ensures x == y <==> x * k == y * k
  {
    if x > y {
      assert (x - y) * k > 0.0;
    } else if x < y {
      assert (y - x) * k > 0.0;
    }
  }

  /** The places of the orders kept, from `n` on. */
  lemma {:induction false} FirstsAre(book: seq<Order>, n: nat) returns (places: seq<nat>)
    requires n <= |book|
    ensures |places| == |Firsts(book, n)| && forall k :: 0 <= k < |places| ==> n <= places[k] < |book| && Firsts(book, n)[k] == book[places[k]]
    ensures Increasing(places)
    ensures forall i :: n <= i < |book| ==> (i in places <==> FirstOfUser(book, i))
    decreases |book| - n
  {
    places := [];
    if n < |book| {
      places := FirstsAre(book, n + 1);
      if FirstOfUser(book, n) {
        places := [n] + places;
      }
    }
  }

  /** The orders in `eligible` are each user's first that buys anything, best price first. */
  ghost predicate Compared(book: seq<Order>, collate: (string, string) -> bool, eligible: seq<Order>, places: seq<nat>) {
    && |places| == |eligible| && (forall k :: 0 <= k < |places| ==> places[k] < |book| && FirstBuy(book, places[k]))
    && Increasing(places)
    && (forall i :: 0 <= i < |book| && FirstBuy(book, i) ==> i in places)
    && multiset(eligible) == multiset(seq(|places|, k requires 0 <= k < |places| && places[k] < |book| => book[places[k]]))
    && (forall k, m :: 0 <= k < m < |eligible| ==> Ahead(eligible[k], eligible[m], collate))
  }

  lemma EligibleMeans(book: seq<Order>, collate: (string, string) -> bool) returns (places: seq<nat>)
    requires TotalPreorder(collate)
    ensures Compared(book, collate, Eligible(book, collate), places)
  {
    var eligible := Eligible(book, collate);
    places := FirstsAre(book, 0);
    KeepsFirstOfUser(book, 0, {});
    assert book[0..] == book;
    assert KeepFirst(book, {}) == Firsts(book, 0);
    var kept := seq(|places|, k requires 0 <= k < |places| && places[k] < |book| => book[places[k]]);
    assert kept == Firsts(book, 0);
    forall i | 0 <= i < |book|
      ensures FirstOfUser(book, i) <==> FirstBuy(book, i)
    {
      FirstMeans(book, i);
    }
    forall k | 0 <= k < |places|
      ensures FirstBuy(book, places[k])
    {
      assert places[k] in places;
    }
    EligibleSorted(book, collate);
  }

  lemma EligibleSorted(book: seq<Order>, collate: (string, string) -> bool)
    requires TotalPreorder(collate)
    ensures var eligible := Eligible(book, collate);
            forall k, m :: 0 <= k < m < |eligible| ==> Ahead(eligible[k], eligible[m], collate)
  {
    var le, eligible := Before(collate), Eligible(book, collate);
    assert forall a, b :: le(a, b) <==> Price(a) > Price(b) || (Price(a) == Price(b) && collate(a.id, b.id));
    SortSorted(KeepFirst(book, {}), le);
    EligibleAcceptable(book, collate);
    forall k, m | 0 <= k < m < |eligible|
      ensures Ahead(eligible[k], eligible[m], collate)
    {
      assert le(eligible[k], eligible[m]);
      PriceOrder(eligible[k], eligible[m]);
    }
  }

  // ----- what is sold to them -----

  /** The units before order `i`. */
  function Earlier(shares: seq<nat>, i: nat): nat
    requires i <= |shares|
  {
    if i == 0 then 0 else Earlier(shares, i - 1) + shares[i - 1]
  }

  /** Order `i` takes all its whole lots that what is left by those before it allows. */
  predicate TakesItsLots(orders: seq<Order>, shares: seq<nat>, quantity: nat, i: nat)
    requires i < |orders| == |shares|
  {
    var o, left := orders[i], quantity - Earlier(shares, i);
    && Lot(o) > 0 && shares[i] % Lot(o) == 0 && shares[i] <= Units(o) && shares[i] <= left
    && (shares[i] + Lot(o) > Units(o) || shares[i] + Lot(o) > left)
  }

  lemma {:induction false} EarlierTail(shares: seq<nat>, i: nat)
    requires 0 < i <= |shares|
    ensures Earlier(shares, i) == shares[0] + Earlier(shares[1..], i - 1)
  {
    if i > 1 {
      EarlierTail(shares, i - 1);
    }
  }

  lemma {:induction false} GreedyTakes(orders: seq<Order>, quantity: nat, shares: seq<nat>, i: nat)
    requires AllAcceptable(orders) && shares == Greedy(OffersOf(orders), quantity) && i < |orders|
    ensures |shares| == |orders| && TakesItsLots(orders, shares, quantity, i)
    decreases i
  {
    var offers := OffersOf(orders);
    var units := RoundDown(Numbers.Min(quantity, offers[0].units), offers[0].lot);
    var rest := Greedy(offers[1..], quantity - units);
    assert shares == [units] + rest;
    if i == 0 {
      RemainderTellsMultiples(units, offers[0].lot);
    } else {
      OffersTail(orders);
      assert shares[1..] == rest;
      GreedyTakes(orders[1..], quantity - units, rest, i - 1);
      EarlierTail(shares, i);
    }
  }

  /** The row pays its lots. */
  predicate Pays(row: Row) {
    row.quantity > 0 && row.value * Lot(row.order) == row.quantity * Platinum(row.order)
  }

  lemma {:induction false} EarnedMeans(units: nat, lot: nat, price: nat)
    requires lot > 0 && IsMultiple(units, lot)
    ensures Earned(units, lot, price) * lot == units * price
  {
    if units != 0 {
      EarnedMeans(units - lot, lot, price);
    }
  }

  lemma {:induction false} RowsPay(orders: seq<Order>, quantity: nat)
    requires AllAcceptable(orders)
    ensures forall row :: row in Fill(orders, quantity) ==> Pays(row)
  {
    if orders != [] {
      var units := Take(orders[0], quantity);
      RowsPay(orders[1..], quantity - units);
      EarnedMeans(units, Lot(orders[0]), Platinum(orders[0]));
    }
  }

  predicate RowAt(orders: seq<Order>, shares: seq<nat>, i: nat, row: Row) {
    i < |orders| && i < |shares| && row.order == orders[i] && row.quantity == shares[i]
  }

  /** The rows are the orders at `places`, which are those that have a share, with it. */
  predicate RowsAt(orders: seq<Order>, shares: seq<nat>, rows: seq<Row>, places: seq<nat>) {
    && |shares| == |orders| && |places| == |rows| && Increasing(places)
    && (forall k :: 0 <= k < |rows| ==> RowAt(orders, shares, places[k], rows[k]))
    && (forall i :: 0 <= i < |orders| && shares[i] > 0 ==> i in places)
  }

  lemma SharesShifted(orders: seq<Order>, shares: seq<nat>, places: seq<nat>, i: nat)
    requires orders != [] && |shares| == |orders| && 0 < i < |orders| && shares[i] > 0
    requires forall j :: 0 <= j < |orders[1..]| && shares[1..][j] > 0 ==> j in places
    ensures i in Shifted(places) && i in [0] + Shifted(places)
  {
    assert shares[1..][i - 1] == shares[i];
    InShifted(places, i - 1);
  }

  lemma RowShifted(orders: seq<Order>, shares: seq<nat>, i: nat, row: Row)
    requires orders != [] && |shares| == |orders| && RowAt(orders[1..], shares[1..], i, row)
    ensures RowAt(orders, shares, i + 1, row)
  {
  }

  lemma RowsSkip(orders: seq<Order>, shares: seq<nat>, rows: seq<Row>, places: seq<nat>)
    requires orders != [] && |shares| == |orders| && RowsAt(orders[1..], shares[1..], rows, places) && shares[0] == 0
    ensures RowsAt(orders, shares, rows, Shifted(places))
  {
    ShiftedIncreasing(places);
    forall k | 0 <= k < |rows|
      ensures RowAt(orders, shares, Shifted(places)[k], rows[k])
    {
      RowShifted(orders, shares, places[k], rows[k]);
    }
    forall i | 0 <= i < |orders| && shares[i] > 0
      ensures i in Shifted(places)
    {
      SharesShifted(orders, shares, places, i);
    }
  }

  lemma RowsOne(orders: seq<Order>, shares: seq<nat>, rows: seq<Row>, places: seq<nat>, row: Row, more: seq<nat>, all: seq<Row>)
    requires orders != [] && |shares| == |orders| && RowsAt(orders[1..], shares[1..], rows, places)
    requires RowAt(orders, shares, 0, row) && more == [0] + Shifted(places) && all == [row] + rows
    ensures RowsAt(orders, shares, all, more)
  {
    ShiftedIncreasing(places);
    forall k | 0 <= k < |all|
      ensures RowAt(orders, shares, more[k], all[k])
    {
      if k > 0 {
        RowShifted(orders, shares, places[k - 1], rows[k - 1]);
        assert more[k] == places[k - 1] + 1 && all[k] == rows[k - 1];
      }
    }
    forall i | 0 <= i < |orders| && shares[i] > 0
      ensures i in more
    {
      if i > 0 {
        SharesShifted(orders, shares, places, i);
      }
    }
  }

  lemma {:induction false} FillRows(orders: seq<Order>, quantity: nat, shares: seq<nat>) returns (places: seq<nat>)
    requires AllAcceptable(orders) && shares == Greedy(OffersOf(orders), quantity)
    ensures RowsAt(orders, shares, Fill(orders, quantity), places)
  {
    places := [];
    if orders != [] {
      var o := orders[0];
      var units := Take(o, quantity);
      OffersTail(orders);
      var rest := Greedy(OffersOf(orders[1..]), quantity - units);
      GreedyStep(OffersOf(orders), OffersOf(orders[1..]), quantity, units, rest);
      var later := FillRows(orders[1..], quantity - units, rest);
      FillStep(orders, quantity);
      places := FirstRow(orders, shares, units, rest, Fill(orders[1..], quantity - units), later, Fill(orders, quantity));
    }
  }

  lemma FirstRow(orders: seq<Order>, shares: seq<nat>, units: nat, rest: seq<nat>, rows: seq<Row>, later: seq<nat>, all: seq<Row>)
    returns (places: seq<nat>)
    requires orders != [] && Acceptable(orders[0]) && shares == [units] + rest && |shares| == |orders|
    requires RowsAt(orders[1..], rest, rows, later)
    requires all == if units == 0 then rows else [Row(orders[0], units, Worth(orders[0], units))] + rows
    ensures RowsAt(orders, shares, all, places)
  {
    assert shares[1..] == rest;
    if units == 0 {
      RowsSkip(orders, shares, rows, later);
      places := Shifted(later);
    } else {
      places := [0] + Shifted(later);
      RowsOne(orders, shares, rows, later, all[0], places, all);
    }
  }

  ghost predicate ComparedSome(book: seq<Order>, collate: (string, string) -> bool, eligible: seq<Order>) {
    exists places :: Compared(book, collate, eligible, places)
  }

  ghost predicate RowsSome(orders: seq<Order>, shares: seq<nat>, rows: seq<Row>) {
    exists places :: RowsAt(orders, shares, rows, places)
  }

  lemma SharesMean(eligible: seq<Order>, quantity: nat, shares: seq<nat>)
    requires AllAcceptable(eligible) && shares == Greedy(OffersOf(eligible), quantity)
    ensures |shares| == |eligible| && forall i :: 0 <= i < |shares| ==> TakesItsLots(eligible, shares, quantity, i)
    ensures RowsSome(eligible, shares, Fill(eligible, quantity))
    ensures Quantities(Fill(eligible, quantity)) == Earlier(shares, |shares|)
  {
    forall i | 0 <= i < |shares|
      ensures TakesItsLots(eligible, shares, quantity, i)
    {
      GreedyTakes(eligible, quantity, shares, i);
    }
    var rows := FillRows(eligible, quantity, shares);
    var same := FillIsAllocation(eligible, quantity);
    RowsQuantities(eligible, same);
    SumMeans(shares);
  }

  /** The comparison of a quantity with the orders of a book. */
  ghost predicate Compares(book: seq<Order>, collate: (string, string) -> bool, quantity: nat, ask: real, c: Comparison,
                           eligible: seq<Order>, shares: seq<nat>)
  {
    && ComparedSome(book, collate, eligible)
    && |shares| == |eligible| && (forall i :: 0 <= i < |shares| ==> TakesItsLots(eligible, shares, quantity, i))
    && RowsSome(eligible, shares, c.rows) && (forall row :: row in c.rows ==> Pays(row))
    && c.covered == Earlier(shares, |shares|) && c.covered + c.uncovered == quantity
    && c.value == Values(c.rows) && c.askValue == c.covered as real * ask && c.gap == c.askValue - c.value as real
  }

  lemma {:induction false} SumMeans(shares: seq<nat>)
    ensures Sum(shares) == Earlier(shares, |shares|)
  {
    if shares != [] {
      SumMeans(shares[1..]);
      EarlierTail(shares, |shares|);
    }
  }

  /**
   * What a comparison says: each user's first order that buys anything, best price first, takes all its whole lots
   * that fit into what the orders before it leave.
   */
  lemma ComparisonMeans(book: seq<Order>, collate: (string, string) -> bool, quantity: nat, ask: real, c: Comparison)
    returns (shares: seq<nat>)
    requires TotalPreorder(collate) && Sold(c, Buyers.Eligible(book, collate), quantity, ask)
    ensures Compares(book, collate, quantity, ask, c, Buyers.Eligible(book, collate), shares)
  {
    var eligible := Buyers.Eligible(book, collate);
    var places := EligibleMeans(book, collate);
    shares := Greedy(OffersOf(eligible), quantity);
    SharesMean(eligible, quantity, shares);
    RowsPay(eligible, quantity);
  }

  /** The orders compared are those of the book. */
  lemma OffersMean(quote: Option<Quote>, error: bool, book: Book, orders: seq<Order>)
    requires quote == Some(Quote(error, Some(book))) && book.orders == Some(orders)
    ensures Offers(quote) == orders
  {
  }

  // ----- why a comparison is refused -----

  /** What speaks against a comparison. */
  ghost predicate Applies(quote: Option<Quote>, quantity: Number, ask: Number, now: Number, e: CompareError) {
    match e
    case Invalid => !(exists k :: Is(quantity, k) && k > 0) || !(exists x :: ask == Finite(x) && x > 0.0)
    case Unavailable => !exists book, orders, x :: quote == Some(Quote(false, Some(book))) && book.orders == Some(orders) && book.observed == Finite(x)
    case Locked => exists error, book :: quote == Some(Quote(error, Some(book))) && !book.ownOrdersExcluded
    case Stale => exists error, book, seen :: quote == Some(Quote(error, Some(book))) && book.observed == Finite(seen)
                    && !exists x :: now == Finite(x) && seen <= x < seen + 60000.0
  }

  function Place(e: CompareError): nat {
    match e
    case Invalid => 0
    case Unavailable => 1
    case Locked => 2
    case Stale => 3
  }

  /** A comparison is refused for the first thing that speaks against it. */
  lemma RefusalMeans(quote: Option<Quote>, quantity: Number, ask: Number, now: Number)
    ensures var refusal := Refusal(quote, quantity, ask, now);
            && (refusal.None? <==> forall e :: !Applies(quote, quantity, ask, now, e))
            && (refusal.Some? ==>
                  && Applies(quote, quantity, ask, now, refusal.value)
                  && forall e :: Place(e) < Place(refusal.value) ==> !Applies(quote, quantity, ask, now, e))
  {
    var refusal := Refusal(quote, quantity, ask, now);
    InvalidMeans(quote, quantity, ask, now);
    UnavailableMeans(quote, quantity, ask, now);
    if !Applies(quote, quantity, ask, now, Invalid) && !Applies(quote, quantity, ask, now, Unavailable) {
      var book := quote.value.book.value;
      assert quote == Some(Quote(false, Some(book))) && book.observed == Finite(book.observed.value);
      assert Applies(quote, quantity, ask, now, Locked) <==> !book.ownOrdersExcluded;
      StaleMeans(quote, quantity, ask, now, book);
    }
  }

  lemma InvalidMeans(quote: Option<Quote>, quantity: Number, ask: Number, now: Number)
    ensures Applies(quote, quantity, ask, now, Invalid)
       <==> !IsSafeInteger(quantity) || Buyers.Whole(quantity) <= 0 || !ask.Finite? || ask.value <= 0.0
  {
    WholeMeans(quantity);
  }

  lemma UnavailableMeans(quote: Option<Quote>, quantity: Number, ask: Number, now: Number)
    ensures Applies(quote, quantity, ask, now, Unavailable)
       <==> quote.None? || quote.value.hasError || quote.value.book.None? || quote.value.book.value.orders.None?
            || !quote.value.book.value.observed.Finite?
  {
    if quote.Some? && quote.value.book.Some? {
      var book := quote.value.book.value;
      if !quote.value.hasError && book.orders.Some? && book.observed.Finite? {
        assert quote == Some(Quote(false, Some(book))) && book.orders == Some(book.orders.value) && book.observed == Finite(book.observed.value);
      }
    }
  }

  lemma StaleMeans(quote: Option<Quote>, quantity: Number, ask: Number, now: Number, book: Book)
    requires quote == Some(Quote(false, Some(book))) && book.observed.Finite?
    ensures Applies(quote, quantity, ask, now, Stale)
       <==> !now.Finite? || now.value < book.observed.value || now.value - book.observed.value >= 60000.0
  {
    assert book.observed == Finite(book.observed.value);
    if now.Finite? {
      assert now == Finite(now.value);
    }
  }
}
