/** Where a mastery-rank usage curve is concentrated, and which set a part belongs to (`scoring.rs`). */
module Mastery {
  import opened Outcome

  /** Indices `from..=to` of the curve. */
  datatype Band = Band(from: nat, to: nat)

  function Sum(v: seq<real>): real {
    if v == [] then 0.0 else Sum(v[..|v| - 1]) + v[|v| - 1]
  }

  /** The sum of `v[i..j]`. */
  function Between(v: seq<real>, i: nat, j: nat): real
    requires i <= j <= |v|
    decreases j
  {
    if i == j then 0.0 else Between(v, i, j - 1) + v[j - 1]
  }

  predicate Within(v: seq<real>, b: Band) {
    b.from <= b.to < |v|
  }

  function Weight(v: seq<real>, b: Band): real
    requires Within(v, b)
  {
    Between(v, b.from, b.to + 1)
  }

  /** The band holds at least three fifths of the whole. */
  predicate Covers(v: seq<real>, b: Band)
    requires Within(v, b) && Sum(v) > 0.0
  {
    Weight(v, b) / Sum(v) >= 0.6
  }

  /** The first index of the largest entry of `v[..n]`. */
  function PeakOf(v: seq<real>, n: nat): (peak: nat)
    requires 0 < n <= |v|
    ensures peak < n
    ensures forall i :: 0 <= i < peak ==> v[i] < v[peak]
    ensures forall i :: peak <= i < n ==> v[i] <= v[peak]
  {
    if n == 1 then 0
    else
      var peak := PeakOf(v, n - 1);
      if v[n - 1] > v[peak] then n - 1 else peak
  }

  function SaturatingSub(n: nat, d: nat): nat {
    if n >= d then n - d else 0
  }

  function LeftOf(v: seq<real>, b: Band): real
    requires Within(v, b)
  {
    if b.from > 0 then v[b.from - 1] else -1.0
  }

  function RightOf(v: seq<real>, b: Band): real
    requires Within(v, b)
  {
    if b.to + 1 < |v| then v[b.to + 1] else -1.0
  }

  /** No entry to move over: at the left edge with -1 or less on the right, or at the right edge with less on the left. */
  predicate Lost(v: seq<real>, b: Band)
    requires Within(v, b)
  {
    (b.from == 0 && RightOf(v, b) <= -1.0) || (b.to == |v| - 1 && LeftOf(v, b) < -1.0)
  }

  /** One turn of the loop: towards the larger neighbour, to the left on a tie. */
  function Widen(v: seq<real>, b: Band): (r: Band)
    requires Within(v, b)
    ensures !Lost(v, b) ==> Within(v, r) && r.to - r.from == b.to - b.from + 1
  {
    if RightOf(v, b) > LeftOf(v, b) then Band(b.from, b.to + 1)
    else Band(SaturatingSub(b.from, 1), b.to)
  }

  /** The loop goes on. */
  predicate Unfinished(v: seq<real>, b: Band, acc: real)
    requires Within(v, b) && Sum(v) > 0.0
  {
    acc / Sum(v) < 0.6 && (b.from > 0 || b.to < |v| - 1)
  }

  /** From `b` on, every band that falls short has an entry to move over. */
  predicate WalksOn(v: seq<real>, b: Band)
    requires Within(v, b) && Sum(v) > 0.0
    decreases |v| - (b.to - b.from)
  {
    Unfinished(v, b, Weight(v, b)) ==> !Lost(v, b) && WalksOn(v, Widen(v, b))
  }

  /** The bands the loop passes through, as far as it gets. */
  function Grow(v: seq<real>, b: Band): (r: Band)
    requires Within(v, b) && Sum(v) > 0.0 && WalksOn(v, b)
    ensures Within(v, r)
    decreases |v| - (b.to - b.from)
  {
    if Unfinished(v, b, Weight(v, b)) then Grow(v, Widen(v, b)) else b
  }

  function PeakBand(v: seq<real>): Band
    requires v != []
  {
    Band(PeakOf(v, |v|), PeakOf(v, |v|))
  }

  /** No band on the way is lost: the at most `|v|` bands from the first peak can be looked through beforehand. */
  predicate NeverLost(v: seq<real>) {
    Sum(v) > 0.0 ==> WalksOn(v, PeakBand(v))
  }

  /** `mastery_band` as a function of the curve. */
  function MasteryBand(v: seq<real>): Option<Band>
    requires NeverLost(v)
  {
    if Sum(v) <= 0.0 then None else Some(Grow(v, PeakBand(v)))
  }

  lemma {:induction false} BetweenLeft(v: seq<real>, i: nat, j: nat)
    requires i < j <= |v|
    ensures Between(v, i, j) == v[i] + Between(v, i + 1, j)
    decreases j
  {
    if j > i + 1 {
      BetweenLeft(v, i, j - 1);
    }
  }

  lemma {:induction false} Whole(v: seq<real>, n: nat)
    requires n <= |v|
    ensures Between(v, 0, n) == Sum(v[..n])
  {
    if n > 0 {
      assert v[..n][..n - 1] == v[..n - 1];
      Whole(v, n - 1);
    }
  }

  /** A turn adds exactly the entry it moves over. */
  lemma WidenAdds(v: seq<real>, b: Band)
    requires Within(v, b) && !Lost(v, b)
    ensures var r, right, left := Widen(v, b), RightOf(v, b), LeftOf(v, b);
            && r.to - r.from == b.to - b.from + 1 && r.from <= b.from && b.to <= r.to
            && Weight(v, r) == Weight(v, b) + (if right > left then right else left)
  {
    if RightOf(v, b) <= LeftOf(v, b) {
      BetweenLeft(v, b.from - 1, b.to + 1);
    }
  }

  lemma WeightOfOne(v: seq<real>, i: nat)
    requires i < |v|
    ensures Weight(v, Band(i, i)) == v[i]
  {
    assert Between(v, i, i) == 0.0;
  }

  /** What one turn of the loop does to the band and its running sum. */
  lemma Turn(v: seq<real>, b: Band, acc: real)
    requires Within(v, b) && Sum(v) > 0.0 && WalksOn(v, b) && acc == Weight(v, b)
    ensures if Unfinished(v, b, acc) then
              Within(v, Widen(v, b)) && WalksOn(v, Widen(v, b)) && Grow(v, b) == Grow(v, Widen(v, b))
              && Widen(v, b).to - Widen(v, b).from == b.to - b.from + 1
              && Weight(v, Widen(v, b)) == (if RightOf(v, b) > LeftOf(v, b) then acc + RightOf(v, b) else acc + LeftOf(v, b))
            else Grow(v, b) == b
  {
    if Unfinished(v, b, acc) {
      WidenAdds(v, b);
    }
  }

  /** `mastery_band`: the running sum `acc` is all the loop looks at. */
  method FindMasteryBand(v: seq<real>) returns (band: Option<Band>)
    requires NeverLost(v)
    ensures band == MasteryBand(v)
  {
    var total := Sum(v);
    if total <= 0.0 {
      return None;
    }
    var peak := 0;
    var highest := v[0];
    for index := 1 to |v|
      invariant peak == PeakOf(v, index) && highest == v[peak]
    {
      if v[index] > highest {
        peak := index;
        highest := v[index];
      }
    }
    WeightOfOne(v, peak);
    var from, to := WidenFromPeak(v, total, peak, highest);
    return Some(Band(from, to));
  }

  /** The second loop, from the first peak on. */
  method WidenFromPeak(v: seq<real>, total: real, peak: nat, highest: real) returns (from: nat, to: nat)
    requires peak < |v| && total == Sum(v) > 0.0 && WalksOn(v, Band(peak, peak))
    requires highest == Weight(v, Band(peak, peak))
    ensures Band(from, to) == Grow(v, Band(peak, peak))
  {
    var acc := highest;
    from, to := peak, peak;
    ghost var b, grown := Band(peak, peak), Grow(v, Band(peak, peak));
    while acc / total < 0.6 && (from > 0 || to < |v| - 1)
      invariant b == Band(from, to) && Within(v, b) && WalksOn(v, b)
      invariant acc == Weight(v, b) && Grow(v, b) == grown
      decreases |v| - (b.to - b.from)
    {
      Turn(v, b, acc);
      var left := if from > 0 then v[from - 1] else -1.0;
      var right := if to + 1 < |v| then v[to + 1] else -1.0;
      b := Widen(v, b);
      if right > left {
        to := to + 1;
        acc := acc + right;
      } else {
        from := SaturatingSub(from, 1);
        acc := acc + left;
      }
    }
    Turn(v, b, acc);
  }

  /** The first peak is in the band. */
  lemma {:induction false} GrowContains(v: seq<real>, b: Band)
    requires Within(v, b) && Sum(v) > 0.0 && WalksOn(v, b)
    ensures Grow(v, b).from <= b.from && b.to <= Grow(v, b).to
    decreases |v| - (b.to - b.from)
  {
    if Unfinished(v, b, Weight(v, b)) {
      WidenAdds(v, b);
      GrowContains(v, Widen(v, b));
    }
  }

  /** The loop never stops short of three fifths. */
  lemma {:induction false} GrowCovers(v: seq<real>, b: Band)
    requires Within(v, b) && Sum(v) > 0.0 && WalksOn(v, b)
    ensures Covers(v, Grow(v, b))
    decreases |v| - (b.to - b.from)
  {
    if Unfinished(v, b, Weight(v, b)) {
      WidenAdds(v, b);
      GrowCovers(v, Widen(v, b));
    } else if b.from == 0 && b.to == |v| - 1 {
      Whole(v, |v|);
      assert v[..|v|] == v;
    }
  }

  /** A positive total has a band: it holds the first peak and at least three fifths. */
  lemma BandCovers(v: seq<real>)
    requires NeverLost(v)
    ensures MasteryBand(v).Some? <==> Sum(v) > 0.0
    ensures Sum(v) > 0.0 ==>
              var b := MasteryBand(v).value;
              && Within(v, b) && b.from <= PeakOf(v, |v|) <= b.to
              && Covers(v, b) && Between(v, b.from, b.to + 1) * 5.0 >= Sum(v) * 3.0
  {
    if Sum(v) > 0.0 {
      var peak := PeakOf(v, |v|);
      GrowContains(v, Band(peak, peak));
      GrowCovers(v, Band(peak, peak));
      ThreeFifths(Weight(v, MasteryBand(v).value), Sum(v));
    }
  }

  lemma ThreeFifths(part: real, whole: real)
    requires whole > 0.0
    ensures part / whole >= 0.6 <==> part * 5.0 >= whole * 3.0
  {
    var share := part / whole;
    assert share * whole == part;
    assert share >= 0.6 ==> share * whole >= 0.6 * whole;
    assert share < 0.6 ==> share * whole < 0.6 * whole;
  }

  /** There is an entry of the curve to the left of the band, or to its right. */
  predicate HasLeft(b: Band) {
    b.from > 0
  }

  predicate HasRight(v: seq<real>, b: Band) {
    b.to + 1 < |v|
  }

  /**
   * A turn that stays on the curve takes in the larger of the two entries next to the band, the left one if they are
   * equal, and the only one if there is only one.
   */
  lemma TurnTakesLarger(v: seq<real>, b: Band)
    requires Within(v, b) && !Lost(v, b)
    ensures var next := Widen(v, b);
            && (HasLeft(b) && HasRight(v, b) ==>
                  next == if v[b.from - 1] >= v[b.to + 1] then Band(b.from - 1, b.to) else Band(b.from, b.to + 1))
            && (HasLeft(b) && !HasRight(v, b) ==> next == Band(b.from - 1, b.to))
            && (!HasLeft(b) && HasRight(v, b) ==> next == Band(b.from, b.to + 1))
            && (HasLeft(b) || HasRight(v, b))
  {
  }

  // ----- the shortest band -----

  predicate NonNegative(v: seq<real>) {
    forall i :: 0 <= i < |v| ==> v[i] >= 0.0
  }

  /** Rising to the first peak and falling behind it. */
  predicate Unimodal(v: seq<real>) {
    v != [] ==>
      var peak := PeakOf(v, |v|);
      && (forall i, j :: 0 <= i <= j <= peak ==> v[i] <= v[j])
      && (forall i, j :: peak <= i <= j < |v| ==> v[i] >= v[j])
  }

  /** Nothing outside the band is above `t`, nothing inside below it. */
  ghost predicate Split(v: seq<real>, b: Band, t: real)
    requires Within(v, b)
  {
    && (forall i :: 0 <= i < b.from || b.to < i < |v| ==> v[i] <= t)
    && (forall i :: b.from <= i <= b.to ==> v[i] >= t)
  }

  lemma {:induction false} AtMost(v: seq<real>, i: nat, j: nat, t: real)
    requires i <= j <= |v| && forall k :: i <= k < j ==> v[k] <= t
    ensures Between(v, i, j) <= t * (j - i) as real
    decreases j
  {
    if i < j {
      AtMost(v, i, j - 1, t);
      assert t * (j - i) as real == t * (j - 1 - i) as real + t;
    }
  }

  lemma {:induction false} AtLeast(v: seq<real>, i: nat, j: nat, t: real)
    requires i <= j <= |v| && forall k :: i <= k < j ==> v[k] >= t
    ensures Between(v, i, j) >= t * (j - i) as real
    decreases j
  {
    if i < j {
      AtLeast(v, i, j - 1, t);
      assert t * (j - i) as real == t * (j - 1 - i) as real + t;
    }
  }

  lemma {:induction false} Join(v: seq<real>, i: nat, j: nat, k: nat)
    requires i <= j <= k <= |v|
    ensures Between(v, i, k) == Between(v, i, j) + Between(v, j, k)
    decreases k
  {
    if j < k {
      Join(v, i, j, k - 1);
    }
  }

  /** What `v[i..j]` has above `t` each. */
  function Excess(v: seq<real>, i: nat, j: nat, t: real): real
    requires i <= j <= |v|
  {
    Between(v, i, j) - t * (j - i) as real
  }

  lemma ExcessJoin(v: seq<real>, i: nat, j: nat, k: nat, t: real)
    requires i <= j <= k <= |v|
    ensures Excess(v, i, k, t) == Excess(v, i, j, t) + Excess(v, j, k, t)
  {
    Join(v, i, j, k);
    assert t * (k - i) as real == t * (j - i) as real + t * (k - j) as real;
  }

  /** Moving the start of an interval to the start of the band loses nothing. */
  lemma FromBandStart(v: seq<real>, b: Band, t: real, i: nat, j: nat)
    requires Within(v, b) && Split(v, b, t) && i <= b.to + 1 && i <= j <= |v| && b.from <= j
    ensures Excess(v, i, j, t) <= Excess(v, b.from, j, t)
  {
    if i < b.from {
      AtMost(v, i, b.from, t);
      ExcessJoin(v, i, b.from, j, t);
    } else {
      AtLeast(v, b.from, i, t);
      ExcessJoin(v, b.from, i, j, t);
    }
  }

  lemma ToBandEnd(v: seq<real>, b: Band, t: real, j: nat)
    requires Within(v, b) && Split(v, b, t) && b.from <= j <= |v|
    ensures Excess(v, b.from, j, t) <= Excess(v, b.from, b.to + 1, t)
  {
    var d := b.to + 1;
    if d < j {
      AtMost(v, d, j, t);
      ExcessJoin(v, b.from, d, j, t);
    } else {
      AtLeast(v, j, d, t);
      ExcessJoin(v, b.from, j, d, t);
    }
  }

  /** Outside the band there is nothing to gain above `t`, inside nothing to lose. */
  lemma ExcessBound(v: seq<real>, b: Band, t: real, i: nat, j: nat)
    requires Within(v, b) && Split(v, b, t) && i <= j <= |v|
    ensures Excess(v, i, j, t) <= Excess(v, b.from, b.to + 1, t)
  {
    if j <= b.from || b.to < i {
      AtMost(v, i, j, t);
      AtLeast(v, b.from, b.to + 1, t);
    } else {
      FromBandStart(v, b, t, i, j);
      ToBandEnd(v, b, t, j);
    }
  }

  /** No interval of at most the same length is heavier than one that holds the largest entries. */
  lemma HeaviestOfItsLength(v: seq<real>, b: Band, t: real, other: Band)
    requires Within(v, b) && Within(v, other) && Split(v, b, t) && t >= 0.0
    requires other.to - other.from <= b.to - b.from
    ensures Weight(v, other) <= Weight(v, b)
  {
    ExcessBound(v, b, t, other.from, other.to + 1);
    FromExcess(Weight(v, other), Weight(v, b), t, (other.to + 1 - other.from) as real, (b.to + 1 - b.from) as real);
  }

  lemma FromExcess(a: real, b: real, t: real, k: real, n: real)
    requires a - t * k <= b - t * n && t >= 0.0 && k <= n
    ensures a <= b
  {
    var d := n - k;
    assert t * n == t * k + t * d;
  }

  /** On a unimodal curve the larger neighbour is the largest entry left. */
  lemma NextSplits(v: seq<real>, b: Band)
    requires Within(v, b) && Unimodal(v) && NonNegative(v) && b.from <= PeakOf(v, |v|) <= b.to
    requires b.from > 0 || b.to < |v| - 1
    requires b.from > 0 ==> forall i :: b.from <= i <= b.to ==> v[i] >= v[b.from - 1]
    requires b.to + 1 < |v| ==> forall i :: b.from <= i <= b.to ==> v[i] >= v[b.to + 1]
    ensures var r := Widen(v, b);
            && (r.from > 0 ==> forall i :: r.from <= i <= r.to ==> v[i] >= v[r.from - 1])
            && (r.to + 1 < |v| ==> forall i :: r.from <= i <= r.to ==> v[i] >= v[r.to + 1])
  {
  }

  /** Every entry of the band is at least its neighbours. */
  predicate Topped(v: seq<real>, b: Band)
    requires Within(v, b)
  {
    && (b.from > 0 ==> forall i :: b.from <= i <= b.to ==> v[i] >= v[b.from - 1])
    && (b.to + 1 < |v| ==> forall i :: b.from <= i <= b.to ==> v[i] >= v[b.to + 1])
  }

  lemma ToppedSplits(v: seq<real>, b: Band) returns (t: real)
    requires Within(v, b) && Unimodal(v) && NonNegative(v) && Topped(v, b) && b.from <= PeakOf(v, |v|) <= b.to
    ensures t >= 0.0 && Split(v, b, t)
  {
    var left, right := if b.from > 0 then v[b.from - 1] else 0.0, if b.to + 1 < |v| then v[b.to + 1] else 0.0;
    t := if left > right then left else right;
  }

  /** Growing on a unimodal curve, everything that falls short is the heaviest of its length. */
  lemma {:induction false} ShorterFallsShort(v: seq<real>, b: Band, other: Band)
    requires Within(v, b) && Sum(v) > 0.0 && Unimodal(v) && NonNegative(v) && WalksOn(v, b)
    requires Topped(v, b) && b.from <= PeakOf(v, |v|) <= b.to
    requires Within(v, other) && other.to - other.from < Grow(v, b).to - Grow(v, b).from
    requires other.to - other.from >= b.to - b.from
    ensures !Covers(v, other)
    decreases |v| - (b.to - b.from)
  {
    if Unfinished(v, b, Weight(v, b)) {
      WidenAdds(v, b);
      if other.to - other.from == b.to - b.from {
        var t := ToppedSplits(v, b);
        HeaviestOfItsLength(v, b, t, other);
        ShareOrder(Weight(v, other), Weight(v, b), Sum(v));
      } else {
        NextSplits(v, b);
        ShorterFallsShort(v, Widen(v, b), other);
      }
    }
  }

  lemma ShareOrder(a: real, b: real, total: real)
    requires total > 0.0 && a <= b
    ensures a / total <= b / total
  {
  }

  /** On a unimodal curve no interval shorter than the band holds three fifths. */
  lemma BandIsShortest(v: seq<real>, other: Band)
    requires NonNegative(v) && Unimodal(v) && Sum(v) > 0.0 && Within(v, other)
    requires Covers(v, other)
    ensures NeverLost(v)
    ensures var b := MasteryBand(v).value; b.to - b.from <= other.to - other.from
  {
    ValidCurvesEnd(v);
    var peak := PeakOf(v, |v|);
    var b := Grow(v, Band(peak, peak));
    if other.to - other.from < b.to - b.from {
      ShorterFallsShort(v, Band(peak, peak), other);
    }
  }

  // ----- when the loop ends -----

  /** What the second loop keeps, on any curve: `to` may run off its end. */
  datatype Loop = Loop(from: nat, to: nat, acc: real)

  /** An entry, or -1 where there is none. */
  function EntryAt(v: seq<real>, i: int): real {
    if 0 <= i < |v| then v[i] else -1.0
  }

  predicate GoesOn(v: seq<real>, s: Loop)
    requires Sum(v) > 0.0
  {
    s.acc / Sum(v) < 0.6 && (s.from > 0 || s.to < |v| - 1)
  }

  function OneTurn(v: seq<real>, s: Loop): Loop {
    var left, right := EntryAt(v, s.from - 1), EntryAt(v, s.to + 1);
    if right > left then Loop(s.from, s.to + 1, s.acc + right)
    else Loop(SaturatingSub(s.from, 1), s.to, s.acc + left)
  }

  function AfterTurns(v: seq<real>, n: nat): Loop
    requires Sum(v) > 0.0
  {
    if n == 0 then Loop(PeakOf(v, |v|), PeakOf(v, |v|), v[PeakOf(v, |v|)]) else OneTurn(v, AfterTurns(v, n - 1))
  }

  /** The call returns: there is nothing to share out, or after some number of turns the loop does not go on. */
  ghost predicate Ends(v: seq<real>) {
    Sum(v) <= 0.0 || exists n: nat :: !GoesOn(v, AfterTurns(v, n))
  }

  function LoopAt(v: seq<real>, b: Band): Loop
    requires Within(v, b)
  {
    Loop(b.from, b.to, Weight(v, b))
  }

  /** On the curve a turn does what `Widen` does. */
  lemma TurnOfBand(v: seq<real>, b: Band)
    requires Within(v, b) && !Lost(v, b)
    ensures OneTurn(v, LoopAt(v, b)) == LoopAt(v, Widen(v, b))
  {
    WidenAdds(v, b);
  }

  /** The loop makes turn `n` from `before`, which falls short, to `b`, and that turn is its last. */
  predicate LastTurn(v: seq<real>, n: nat, before: Band, b: Band)
    requires Sum(v) > 0.0 && Within(v, b)
  {
    && Within(v, before) && !Covers(v, before) && b.to - b.from == before.to - before.from + 1
    && AfterTurns(v, n) == LoopAt(v, before) && AfterTurns(v, n + 1) == LoopAt(v, b)
    && (forall k: nat :: k <= n ==> GoesOn(v, AfterTurns(v, k))) && !GoesOn(v, AfterTurns(v, n + 1))
  }

  lemma StopsHere(v: seq<real>, b: Band, next: Band, k: nat)
    requires Within(v, b) && Sum(v) > 0.0 && WalksOn(v, b) && AfterTurns(v, k) == LoopAt(v, b)
    requires forall j: nat :: j < k ==> GoesOn(v, AfterTurns(v, j))
    requires Unfinished(v, b, Weight(v, b)) && next == Widen(v, b) && !Unfinished(v, next, Weight(v, next))
    ensures LastTurn(v, k, b, next) && Grow(v, b) == next
  {
    TurnOfBand(v, b);
    assert Grow(v, next) == next;
  }

  lemma {:induction false} GrowStopsAtOnce(v: seq<real>, b: Band, k: nat) returns (n: nat, before: Band)
    requires Within(v, b) && Sum(v) > 0.0 && WalksOn(v, b) && AfterTurns(v, k) == LoopAt(v, b)
    requires forall j: nat :: j < k ==> GoesOn(v, AfterTurns(v, j))
    ensures if Unfinished(v, b, Weight(v, b)) then LastTurn(v, n, before, Grow(v, b)) else Grow(v, b) == b
    decreases |v| - (b.to - b.from)
  {
    n, before := k, b;
    if Unfinished(v, b, Weight(v, b)) {
      var next := Widen(v, b);
      if Unfinished(v, next, Weight(v, next)) {
        TurnOfBand(v, b);
        n, before := GrowStopsAtOnce(v, next, k + 1);
      } else {
        StopsHere(v, b, next, k);
      }
    }
  }

  /** A band of more than the peak: the loop stops at it, and one turn before what it held fell short. */
  lemma BandIsTight(v: seq<real>) returns (n: nat, before: Band)
    requires NeverLost(v) && Sum(v) > 0.0
    ensures var b := MasteryBand(v).value; b.from < b.to ==> LastTurn(v, n, before, b)
  {
    var peak := PeakBand(v);
    WeightOfOne(v, peak.from);
    assert AfterTurns(v, 0) == LoopAt(v, peak);
    n, before := GrowStopsAtOnce(v, peak, 0);
  }

  lemma {:induction false} WalkEnds(v: seq<real>, b: Band, n: nat) returns (m: nat)
    requires Within(v, b) && Sum(v) > 0.0 && WalksOn(v, b) && AfterTurns(v, n) == LoopAt(v, b)
    ensures !GoesOn(v, AfterTurns(v, m))
    decreases |v| - (b.to - b.from)
  {
    m := n;
    if Unfinished(v, b, Weight(v, b)) {
      TurnOfBand(v, b);
      m := WalkEnds(v, Widen(v, b), n + 1);
    }
  }

  /** The loop stands where no turn adds an entry. */
  predicate LostAt(v: seq<real>, s: Loop)
    requires Sum(v) > 0.0
  {
    && GoesOn(v, s)
    && (if s.from == 0 then EntryAt(v, s.to + 1) <= -1.0 else s.to >= |v| - 1 && EntryAt(v, s.from - 1) < -1.0)
  }

  lemma LostStays(v: seq<real>, s: Loop)
    requires Sum(v) > 0.0 && LostAt(v, s)
    ensures LostAt(v, OneTurn(v, s))
  {
    ShareOrder(s.acc - 1.0, s.acc, Sum(v));
  }

  /** A loop that has lost its way never ends. */
  lemma {:induction false} LostForever(v: seq<real>, n: nat, m: nat)
    requires Sum(v) > 0.0 && LostAt(v, AfterTurns(v, n)) && n <= m
    ensures LostAt(v, AfterTurns(v, m))
    decreases m
  {
    if n < m {
      LostForever(v, n, m - 1);
      LostStays(v, AfterTurns(v, m - 1));
    }
  }

  lemma {:induction false} WalkGetsLost(v: seq<real>, b: Band, n: nat) returns (m: nat)
    requires Within(v, b) && Sum(v) > 0.0 && !WalksOn(v, b) && AfterTurns(v, n) == LoopAt(v, b)
    requires forall k: nat :: k < n ==> GoesOn(v, AfterTurns(v, k))
    ensures LostAt(v, AfterTurns(v, m))
    ensures forall k: nat :: k < m ==> GoesOn(v, AfterTurns(v, k))
    decreases |v| - (b.to - b.from)
  {
    m := n;
    assert GoesOn(v, AfterTurns(v, n));
    if !Lost(v, b) {
      TurnOfBand(v, b);
      m := WalkGetsLost(v, Widen(v, b), n + 1);
    }
  }

  /** On every curve at all: the call returns exactly when no band on the way from the first peak is lost. */
  lemma EndsExactly(v: seq<real>)
    ensures Ends(v) <==> NeverLost(v)
  {
    if Sum(v) > 0.0 {
      var b := PeakBand(v);
      WeightOfOne(v, b.from);
      assert AfterTurns(v, 0) == LoopAt(v, b);
      if WalksOn(v, b) {
        var m := WalkEnds(v, b, 0);
      } else {
        var m := WalkGetsLost(v, b, 0);
        forall n: nat
          ensures GoesOn(v, AfterTurns(v, n))
        {
          if n >= m {
            LostForever(v, m, n);
          }
        }
      }
    }
  }

  lemma {:induction false} ValidWalksOn(v: seq<real>, b: Band)
    requires Within(v, b) && Sum(v) > 0.0 && forall i :: 0 <= i < |v| ==> v[i] > -1.0
    ensures WalksOn(v, b)
    decreases |v| - (b.to - b.from)
  {
    if Unfinished(v, b, Weight(v, b)) {
      ValidWalksOn(v, Widen(v, b));
    }
  }

  /** With all entries above -1, as `valid_usage` sees to, the call returns. */
  lemma ValidCurvesEnd(v: seq<real>)
    requires forall i :: 0 <= i < |v| ==> v[i] > -1.0
    ensures NeverLost(v) && Ends(v)
  {
    if Sum(v) > 0.0 {
      ValidWalksOn(v, PeakBand(v));
    }
    EndsExactly(v);
  }

  /** A curve with one negative entry, refused by `valid_usage`, on which the call never returns. */
  lemma NegativeEntryNeverEnds()
    ensures !Ends([1.0, -1.0, 1.0, 1.0])
  {
    var v := [1.0, -1.0, 1.0, 1.0];
    assert v[..3] == [1.0, -1.0, 1.0] && v[..3][..2] == [1.0, -1.0] && v[..2][..1] == [1.0] && v[..1][..0] == [];
    assert v[..3][..2] == v[..2];
    assert Sum(v[..1]) == 1.0;
    assert Sum(v[..2]) == 0.0;
    assert Sum(v[..3]) == 1.0;
    assert Sum(v) == 2.0;
    assert PeakOf(v, 1) == 0;
    assert PeakOf(v, 2) == 0;
    assert PeakOf(v, 3) == 0;
    assert PeakOf(v, 4) == 0;
    WeightOfOne(v, 0);
    assert Unfinished(v, PeakBand(v), 1.0) && Lost(v, PeakBand(v));
    EndsExactly(v);
  }

  /** A negative entry does no harm where the loop never comes to it. */
  lemma NegativeEntryMayEnd()
    ensures Ends([10.0, -5.0])
  {
    var v := [10.0, -5.0];
    assert v[..1] == [10.0] && v[..1][..0] == [];
    assert Sum(v[..1]) == 10.0;
    assert Sum(v) == 5.0;
    assert PeakOf(v, 1) == 0;
    assert PeakOf(v, 2) == 0;
    WeightOfOne(v, 0);
    assert !Unfinished(v, PeakBand(v), 10.0);
    EndsExactly(v);
  }

  // ----- which set a part belongs to -----

  datatype UsageSet = UsageSet(parent: string, parts: seq<string>)

  predicate Lists(s: UsageSet, part: string) {
    part != "" && part in s.parts
  }

  /** The parents of a part. */
  function Parents(sets: seq<UsageSet>, part: string): set<string> {
    set s | s in sets && Lists(s, part) :: s.parent
  }

  /** A part is indexed if it has a parent, by that parent if it has no other. */
  ghost predicate IndexedBy(index: map<string, Option<string>>, part: string, parents: set<string>) {
    && (part in index <==> parents != {})
    && (part in index && index[part].Some? ==> parents == {index[part].value})
    && (part in index && index[part].None? ==> forall parent :: parents != {parent})
  }

  /** The index after one more listed part. */
  function Listed(index: map<string, Option<string>>, part: string, parent: string): map<string, Option<string>> {
    if part !in index then index[part := Some(parent)]
    else if index[part].Some? && index[part].value != parent then index[part := None]
    else index
  }

  lemma ListedIndexed(index: map<string, Option<string>>, part: string, parent: string, q: string, parents: set<string>)
    requires IndexedBy(index, q, parents)
    ensures IndexedBy(Listed(index, part, parent), q, if q == part then parents + {parent} else parents)
  {
    if q == part && part in index {
      forall p
        ensures index[part].None? ==> parents + {parent} != {p}
      {
        assert parents + {parent} == {p} ==> parents == {p};
      }
      if index[part].Some? && index[part].value != parent {
        assert parent in parents + {parent} && index[part].value in parents + {parent};
      }
    }
  }

  lemma ParentsOfMore(sets: seq<UsageSet>, parent: string, parts: seq<string>, j: nat, q: string)
    requires j < |parts|
    ensures Parents(sets + [UsageSet(parent, parts[..j + 1])], q)
         == if q == parts[j] && q != "" then Parents(sets + [UsageSet(parent, parts[..j])], q) + {parent}
            else Parents(sets + [UsageSet(parent, parts[..j])], q)
  {
    var small, large := UsageSet(parent, parts[..j]), UsageSet(parent, parts[..j + 1]);
    assert parts[..j + 1] == parts[..j] + [parts[j]];
    assert forall s :: s in sets + [small] <==> s in sets || s == small;
    assert forall s :: s in sets + [large] <==> s in sets || s == large;
    assert large in sets + [large] && small in sets + [small];
  }

  lemma NoPartsYet(sets: seq<UsageSet>, parent: string, q: string)
    ensures Parents(sets + [UsageSet(parent, [])], q) == Parents(sets, q)
  {
  }

  /** `parent_index` */
  method ParentIndex(sets: seq<UsageSet>) returns (index: map<string, Option<string>>)
    ensures forall part :: IndexedBy(index, part, Parents(sets, part))
  {
    index := map[];
    for i := 0 to |sets|
      invariant forall q :: IndexedBy(index, q, Parents(sets[..i], q))
    {
      var parent, parts := sets[i].parent, sets[i].parts;
      forall q
        ensures IndexedBy(index, q, Parents(sets[..i] + [UsageSet(parent, parts[..0])], q))
      {
        NoPartsYet(sets[..i], parent, q);
      }
      for j := 0 to |parts|
        invariant forall q :: IndexedBy(index, q, Parents(sets[..i] + [UsageSet(parent, parts[..j])], q))
      {
        var part := parts[j];
        ghost var before := index;
        if part != "" {
          if part !in index {
            index := index[part := Some(parent)];
          } else if index[part].Some? && index[part].value != parent {
            index := index[part := None];
          }
        }
        ghost var wider := sets[..i] + [UsageSet(parent, parts[..j + 1])];
        forall q
          ensures IndexedBy(index, q, Parents(wider, q))
        {
          ParentsOfMore(sets[..i], parent, parts, j, q);
          ListedIndexed(before, part, parent, q, Parents(sets[..i] + [UsageSet(parent, parts[..j])], q));
        }
      }
      assert UsageSet(parent, parts[..|parts|]) == sets[i];
      assert sets[..i + 1] == sets[..i] + [sets[i]];
    }
    assert sets[..|sets|] == sets;
  }
}
