/** Filling offers in whole lots, against every other way to do it. */
module WholeLots {
  import opened Numbers

  /** A buyer takes at most `units`, in lots of `lot`, at `price` for each unit. */
  datatype Offer = Offer(units: nat, lot: nat, price: real)

  predicate IsMultiple(n: nat, lot: nat)
    requires lot > 0
  {
    n == 0 || (n >= lot && IsMultiple(n - lot, lot))
  }

  /** The largest multiple of `lot` up to `n`. */
  function RoundDown(n: nat, lot: nat): (r: nat)
    requires lot > 0
    ensures r <= n < r + lot && IsMultiple(r, lot)
  {
    if n < lot then 0 else lot + RoundDown(n - lot, lot)
  }

  /** `n` units at `price` each. */
  function Pay(n: nat, price: real): real {
    if n == 0 then 0.0 else price + Pay(n - 1, price)
  }

  predicate Sound(o: Offer) {
    o.lot > 0 && o.price >= 0.0 && IsMultiple(o.units, o.lot)
  }

  predicate AllSound(offers: seq<Offer>) {
    forall i :: 0 <= i < |offers| ==> Sound(offers[i])
  }

  predicate ByPrice(offers: seq<Offer>) {
    forall i, j :: 0 <= i < j < |offers| ==> offers[i].price >= offers[j].price
  }

  predicate PricedAtMost(offers: seq<Offer>, p: real) {
    forall i :: 0 <= i < |offers| ==> offers[i].price <= p
  }

  function Sum(alloc: seq<nat>): nat {
    if alloc == [] then 0 else alloc[0] + Sum(alloc[1..])
  }

  /** What an allocation brings in. */
  function Value(offers: seq<Offer>, alloc: seq<nat>): real
    requires |alloc| == |offers|
  {
    if offers == [] then 0.0 else Pay(alloc[0], offers[0].price) + Value(offers[1..], alloc[1..])
  }

  /** Whole lots within each offer, within the quantity for sale. */
  predicate IsAllocation(offers: seq<Offer>, alloc: seq<nat>, quantity: nat)
    requires AllSound(offers)
  {
    && |alloc| == |offers|
    && (forall i :: 0 <= i < |offers| ==> alloc[i] <= offers[i].units && IsMultiple(alloc[i], offers[i].lot))
    && Sum(alloc) <= quantity
  }

  /** Each offer in turn takes the whole lots it can. */
  function Greedy(offers: seq<Offer>, quantity: nat): (alloc: seq<nat>)
    requires AllSound(offers)
    ensures |alloc| == |offers|
  {
    if offers == [] then []
    else
      var units := RoundDown(Min(quantity, offers[0].units), offers[0].lot);
      [units] + Greedy(offers[1..], quantity - units)
  }

  lemma GreedyStep(offers: seq<Offer>, later: seq<Offer>, quantity: nat, units: nat, rest: seq<nat>)
    requires AllSound(offers) && offers != [] && later == offers[1..] && AllSound(later)
    requires units == RoundDown(Min(quantity, offers[0].units), offers[0].lot) <= quantity
    requires rest == Greedy(later, quantity - units)
    ensures Greedy(offers, quantity) == [units] + rest
  {
  }

  /** The bound with lots ignored: each offer in turn takes all it can. */
  function Fluid(offers: seq<Offer>, quantity: nat): real {
    if offers == [] then 0.0
    else
      var most := Min(quantity, offers[0].units);
      Pay(most, offers[0].price) + Fluid(offers[1..], quantity - most)
  }

  lemma {:induction false} PayMore(m: nat, n: nat, p: real)
    ensures Pay(m + n, p) == Pay(m, p) + Pay(n, p)
  {
    if m > 0 {
      PayMore(m - 1, n, p);
    }
  }

  lemma {:induction false} PayBetter(n: nat, p: real, q: real)
    requires p <= q
    ensures Pay(n, p) <= Pay(n, q)
  {
    if n > 0 {
      PayBetter(n - 1, p, q);
    }
  }

  lemma {:induction false} PayNotNegative(n: nat, p: real)
    requires p >= 0.0
    ensures Pay(n, p) >= 0.0
  {
    if n > 0 {
      PayNotNegative(n - 1, p);
    }
  }

  lemma {:induction false} MultiplesAdd(a: nat, b: nat, lot: nat)
    requires lot > 0 && IsMultiple(a, lot) && IsMultiple(b, lot)
    ensures IsMultiple(a + b, lot)
  {
    if a > 0 {
      MultiplesAdd(a - lot, b, lot);
    }
  }

  /** Taking away a multiple takes it away from the largest multiple. */
  lemma {:induction false} RoundDownLess(n: nat, taken: nat, lot: nat)
    requires lot > 0 && IsMultiple(taken, lot) && taken <= n
    ensures taken <= RoundDown(n, lot) && RoundDown(n - taken, lot) == RoundDown(n, lot) - taken
  {
    if taken > 0 {
      RoundDownLess(n - lot, taken - lot, lot);
    }
  }

  lemma RoundDownOfMultiple(n: nat, lot: nat)
    requires lot > 0 && IsMultiple(n, lot)
    ensures RoundDown(n, lot) == n
  {
    RoundDownLess(n, n, lot);
  }

  /** The fill is an allocation, and no offer could still take one more whole lot. */
  lemma {:induction false} GreedyIsAllocation(offers: seq<Offer>, quantity: nat)
    requires AllSound(offers)
    ensures IsAllocation(offers, Greedy(offers, quantity), quantity)
  {
    if offers != [] {
      var o := offers[0];
      var units := RoundDown(Min(quantity, o.units), o.lot);
      GreedyIsAllocation(offers[1..], quantity - units);
      var all, rest := Greedy(offers, quantity), Greedy(offers[1..], quantity - units);
      assert all == [units] + rest && all[1..] == rest;
      forall i | 0 <= i < |offers|
        ensures all[i] <= offers[i].units && IsMultiple(all[i], offers[i].lot)
      {
        if i > 0 {
          assert offers[i] == offers[1..][i - 1] && all[i] == rest[i - 1];
        }
      }
    }
  }

  /** Each offer is used up or no lot of it fits any more. */
  lemma {:induction false} GreedyIsMaximal(offers: seq<Offer>, quantity: nat)
    requires AllSound(offers)
    ensures forall i :: 0 <= i < |offers| ==>
      Greedy(offers, quantity)[i] == offers[i].units || Sum(Greedy(offers, quantity)) + offers[i].lot > quantity
  {
    if offers != [] {
      var o := offers[0];
      var units := RoundDown(Min(quantity, o.units), o.lot);
      if quantity >= o.units {
        RoundDownOfMultiple(o.units, o.lot);
      }
      GreedyIsMaximal(offers[1..], quantity - units);
      var all, rest := Greedy(offers, quantity), Greedy(offers[1..], quantity - units);
      assert all == [units] + rest && all[1..] == rest;
      forall i | 0 < i < |offers|
        ensures all[i] == offers[i].units || Sum(all) + offers[i].lot > quantity
      {
        assert offers[i] == offers[1..][i - 1] && all[i] == rest[i - 1];
      }
    }
  }

  /** More to sell brings in at most the best price for each unit more. */
  lemma {:induction false} FluidGrows(offers: seq<Offer>, quantity: nat, more: nat, p: real)
    requires PricedAtMost(offers, p) && p >= 0.0
    ensures Fluid(offers, quantity + more) <= Fluid(offers, quantity) + Pay(more, p)
  {
    if offers == [] {
      PayNotNegative(more, p);
    } else {
      var u := offers[0].units;
      var m, n := Min(quantity, u), Min(quantity + more, u);
      FluidGrows(offers[1..], quantity - m, more - (n - m), p);
      assert quantity - m + (more - (n - m)) == quantity + more - n;
      PayMore(m, n - m, offers[0].price);
      PayBetter(n - m, offers[0].price, p);
      PayMore(n - m, more - (n - m), p);
    }
  }

  lemma {:induction false} NothingToSell(offers: seq<Offer>)
    ensures Fluid(offers, 0) == 0.0
  {
    if offers != [] {
      NothingToSell(offers[1..]);
    }
  }

  /** No allocation beats the bound when the best prices come first. */
  lemma {:induction false} FluidBounds(offers: seq<Offer>, alloc: seq<nat>, quantity: nat)
    requires AllSound(offers) && ByPrice(offers) && IsAllocation(offers, alloc, quantity)
    ensures Value(offers, alloc) <= Fluid(offers, quantity)
  {
    if offers != [] {
      var a, p := alloc[0], offers[0].price;
      var m := Min(quantity, offers[0].units);
      FluidBounds(offers[1..], alloc[1..], quantity - a);
      FluidGrows(offers[1..], quantity - m, m - a, p);
      assert quantity - m + (m - a) == quantity - a;
      PayMore(a, m - a, p);
    }
  }

  /** The fill misses the bound by less than one lot at the best price. */
  lemma {:induction false} GreedyNearBound(offers: seq<Offer>, quantity: nat, p: real, lot: nat)
    requires AllSound(offers) && PricedAtMost(offers, p) && p >= 0.0
    requires lot > 0 && forall i :: 0 <= i < |offers| ==> offers[i].lot <= lot
    ensures Fluid(offers, quantity) <= Value(offers, Greedy(offers, quantity)) + Pay(lot - 1, p)
  {
    if offers == [] {
      PayNotNegative(lot - 1, p);
    } else {
      var o := offers[0];
      var most := Min(quantity, o.units);
      var units := RoundDown(most, o.lot);
      assert Greedy(offers, quantity)[1..] == Greedy(offers[1..], quantity - units);
      if units == most {
        GreedyNearBound(offers[1..], quantity - units, p, lot);
      } else {
        if most == o.units {
          RoundDownOfMultiple(o.units, o.lot);
        }
        NothingToSell(offers[1..]);
        ShortOfOneLot(units, quantity - units, o.price, p, lot);
        GreedyNotNegative(offers[1..], quantity - units);
      }
    }
  }

  lemma ShortOfOneLot(units: nat, short: nat, price: real, p: real, lot: nat)
    requires 0.0 <= price <= p && short < lot
    ensures Pay(units + short, price) <= Pay(units, price) + Pay(lot - 1, p)
  {
    PayMore(units, short, price);
    PayBetter(short, price, p);
    PayMore(short, lot - 1 - short, p);
    PayNotNegative(lot - 1 - short, p);
  }

  lemma {:induction false} GreedyNotNegative(offers: seq<Offer>, quantity: nat)
    requires AllSound(offers)
    ensures Value(offers, Greedy(offers, quantity)) >= 0.0
  {
    if offers != [] {
      var units := RoundDown(Min(quantity, offers[0].units), offers[0].lot);
      assert Greedy(offers, quantity)[1..] == Greedy(offers[1..], quantity - units);
      PayNotNegative(units, offers[0].price);
      GreedyNotNegative(offers[1..], quantity - units);
    }
  }

  /** With one lot size the fill reaches the bound of the whole lots in the quantity. */
  lemma {:induction false} OneLotReachesBound(offers: seq<Offer>, quantity: nat, lot: nat)
    requires AllSound(offers) && lot > 0 && forall i :: 0 <= i < |offers| ==> offers[i].lot == lot
    ensures Value(offers, Greedy(offers, quantity)) == Fluid(offers, RoundDown(quantity, lot))
  {
    if offers != [] {
      var o := offers[0];
      var units := RoundDown(Min(quantity, o.units), lot);
      if quantity >= o.units {
        RoundDownOfMultiple(o.units, lot);
      }
      RoundDownLess(quantity, units, lot);
      assert units == Min(RoundDown(quantity, lot), o.units);
      OneLotReachesBound(offers[1..], quantity - units, lot);
      var all, rest := Greedy(offers, quantity), Greedy(offers[1..], quantity - units);
      assert all == [units] + rest && all[1..] == rest;
      assert Value(offers, all) == Pay(units, o.price) + Value(offers[1..], rest);
    }
  }

  lemma {:induction false} SumOfLots(alloc: seq<nat>, lot: nat)
    requires lot > 0 && forall i :: 0 <= i < |alloc| ==> IsMultiple(alloc[i], lot)
    ensures IsMultiple(Sum(alloc), lot)
  {
    if alloc != [] {
      SumOfLots(alloc[1..], lot);
      MultiplesAdd(alloc[0], Sum(alloc[1..]), lot);
    }
  }

  /** With one lot size no allocation of whole lots brings in more than the fill. */
  lemma GreedyIsBestForOneLot(offers: seq<Offer>, quantity: nat, lot: nat, alloc: seq<nat>)
    requires AllSound(offers) && ByPrice(offers) && IsAllocation(offers, alloc, quantity)
    requires lot > 0 && forall i :: 0 <= i < |offers| ==> offers[i].lot == lot
    ensures Value(offers, alloc) <= Value(offers, Greedy(offers, quantity))
  {
    SumOfLots(alloc, lot);
    RoundDownLess(quantity, Sum(alloc), lot);
    FluidBounds(offers, alloc, RoundDown(quantity, lot));
    OneLotReachesBound(offers, quantity, lot);
  }

  /** With any lots the fill falls short of the best by less than one lot at the best price. */
  lemma GreedyIsNearlyBest(offers: seq<Offer>, quantity: nat, lot: nat, alloc: seq<nat>)
    requires AllSound(offers) && ByPrice(offers) && IsAllocation(offers, alloc, quantity) && offers != []
    requires lot > 0 && forall i :: 0 <= i < |offers| ==> offers[i].lot <= lot
    ensures Value(offers, alloc) <= Value(offers, Greedy(offers, quantity)) + Pay(lot - 1, offers[0].price)
  {
    FluidBounds(offers, alloc, quantity);
    GreedyNearBound(offers, quantity, offers[0].price, lot);
  }

  // ----- the arithmetic of the source, for the lot sizes it allows -----

  lemma {:induction false} DivisionRoundsDown(n: nat, lot: nat)
    requires 1 <= lot <= 6
    ensures n / lot * lot == RoundDown(n, lot)
  {
    if n < lot {
      NoLot(n, lot);
    } else {
      DivisionRoundsDown(n - lot, lot);
      OneLotLess(n, lot);
    }
  }

  lemma NoLot(n: nat, lot: nat)
    requires n < lot
    ensures n / lot == 0
  {
  }

  lemma OneLotLess(n: nat, lot: nat)
    requires 1 <= lot <= 6 && lot <= n
    ensures (n - lot) / lot * lot + lot == n / lot * lot
    ensures (n - lot) / lot + 1 == n / lot
  {
    if lot == 1 {
    } else if lot == 2 {
    } else if lot == 3 {
    } else if lot == 4 {
    } else if lot == 5 {
    } else {
      assert lot == 6;
    }
  }

  lemma RemainderTellsMultiples(n: nat, lot: nat)
    requires 1 <= lot <= 6
    ensures n % lot == 0 <==> IsMultiple(n, lot)
  {
    DivisionRoundsDown(n, lot);
    assert n == n / lot * lot + n % lot;
    if IsMultiple(n, lot) {
      RoundDownOfMultiple(n, lot);
    }
  }

  /** A whole lot at its unit price costs what the lot costs. */
  lemma LotCosts(lot: nat, platinum: real)
    requires 1 <= lot <= 6
    ensures Pay(lot, platinum / lot as real) == platinum
  {
    var p := platinum / lot as real;
    assert Pay(1, p) == p + Pay(0, p);
    assert Pay(2, p) == p + Pay(1, p);
    assert Pay(3, p) == p + Pay(2, p);
    assert Pay(4, p) == p + Pay(3, p);
    assert Pay(5, p) == p + Pay(4, p);
    assert Pay(6, p) == p + Pay(5, p);
    if lot == 1 {
    } else if lot == 2 {
    } else if lot == 3 {
    } else if lot == 4 {
    } else if lot == 5 {
    } else {
      assert lot == 6;
    }
  }

  /** What the whole lots in `n` bring in at `platinum` each. */
  function Earned(n: nat, lot: nat, platinum: nat): nat
    requires lot > 0
  {
    if n < lot then 0 else platinum + Earned(n - lot, lot, platinum)
  }

  lemma {:induction false} EarnedByDivision(n: nat, lot: nat, platinum: nat)
    requires 1 <= lot <= 6
    ensures n / lot * platinum == Earned(n, lot, platinum)
  {
    if n >= lot {
      EarnedByDivision(n - lot, lot, platinum);
      OneLotLess(n, lot);
      OneMoreTime((n - lot) / lot, platinum);
    }
  }

  lemma OneMoreTime(k: nat, x: nat)
    ensures (k + 1) * x == k * x + x
  {
  }

  lemma {:induction false} LotsCost(n: nat, lot: nat, platinum: nat)
    requires 1 <= lot <= 6 && IsMultiple(n, lot)
    ensures Earned(n, lot, platinum) as real == Pay(n, platinum as real / lot as real)
  {
    if n > 0 {
      LotsCost(n - lot, lot, platinum);
      LotCosts(lot, platinum as real);
      PayMore(lot, n - lot, platinum as real / lot as real);
    }
  }
}
