/** Places in a sequence, in rising order, and what becomes of them when an element is put in front. */
module Places {
  predicate Increasing(places: seq<nat>) {
    forall j, k :: 0 <= j < k < |places| ==> places[j] < places[k]
  }

  function Shifted(places: seq<nat>): (r: seq<nat>)
    ensures |r| == |places| && forall k :: 0 <= k < |r| ==> r[k] == places[k] + 1
  {
    seq(|places|, k requires 0 <= k < |places| => places[k] + 1)
  }

  lemma ShiftedIncreasing(places: seq<nat>)
    requires Increasing(places)
    ensures Increasing(Shifted(places)) && Increasing([0] + Shifted(places))
  {
    var all := [0] + Shifted(places);
    forall j, k | 0 <= j < k < |all|
      ensures all[j] < all[k]
    {
      assert all[k] == places[k - 1] + 1;
      assert j > 0 ==> all[j] == places[j - 1] + 1;
    }
  }

  /** A place one further on. */
  lemma InShifted(places: seq<nat>, i: nat)
    requires i in places
    ensures i + 1 in Shifted(places) && i + 1 in [0] + Shifted(places)
  {
    var k :| 0 <= k < |places| && places[k] == i;
    assert Shifted(places)[k] == i + 1 && ([0] + Shifted(places))[k + 1] == i + 1;
  }
}
