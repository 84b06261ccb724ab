/** A plan does not depend on the order in which the candidates arrive. */
module TradeSessionOrder {
  import opened Outcome
  import opened Sorting
  import opened TradeSession
  import opened Sequences

  // ----- the ranking is a total order -----

  lemma {:induction false} CompareFlips(a: seq<real>, b: seq<real>)
    ensures Compare(a, b) == -Compare(b, a)
  {
    if a != [] && b != [] {
      CompareFlips(a[1..], b[1..]);
    }
  }

  lemma {:induction false} CompareEqual(a: seq<real>, b: seq<real>)
    ensures Compare(a, b) == 0 <==> a == b
  {
    if a != [] && b != [] {
      CompareEqual(a[1..], b[1..]);
      assert a == [a[0]] + a[1..] && b == [b[0]] + b[1..];
    }
  }

  lemma {:induction false} CompareTransitive(a: seq<real>, b: seq<real>, c: seq<real>)
    requires Compare(a, b) <= 0 && Compare(b, c) <= 0
    ensures Compare(a, c) <= 0
    ensures Compare(a, b) < 0 || Compare(b, c) < 0 ==> Compare(a, c) < 0
    decreases |a|
  {
    if a != [] && b != [] && c != [] && a[0] == b[0] == c[0] {
      CompareTransitive(a[1..], b[1..], c[1..]);
    }
  }

  lemma RankingTransitive(a: Row, b: Row, c: Row)
    requires RankedFirst(a, b) && RankedFirst(b, c)
    ensures RankedFirst(a, c)
  {
    CompareTransitive(c.score, b.score, a.score);
    CompareFlips(a.score, b.score);
    CompareFlips(b.score, c.score);
    if Compare(b.score, a.score) == 0 && Compare(c.score, b.score) == 0 {
      CompareEqual(b.score, a.score);
      CompareEqual(c.score, b.score);
      CompareEqual(c.score, a.score);
      CompareTransitive(AsReals(a.candidate.key), AsReals(b.candidate.key), AsReals(c.candidate.key));
    }
  }

  lemma RankingTotal(a: Row, b: Row)
    ensures RankedFirst(a, b) || RankedFirst(b, a)
  {
    CompareFlips(a.score, b.score);
    CompareFlips(AsReals(a.candidate.key), AsReals(b.candidate.key));
  }

  lemma RankingIsTotalPreorder()
    ensures TotalPreorder(RankedFirst)
  {
    forall a, b
      ensures RankedFirst(a, b) || RankedFirst(b, a)
    {
      RankingTotal(a, b);
    }
    forall a, b, c | RankedFirst(a, b) && RankedFirst(b, c)
      ensures RankedFirst(a, c)
    {
      RankingTransitive(a, b, c);
    }
  }

  /** Rows that tie have the same key. */
  lemma TiesShareKeys(a: Row, b: Row)
    requires RankedFirst(a, b) && RankedFirst(b, a)
    ensures a.candidate.key == b.candidate.key
  {
    CompareFlips(a.score, b.score);
    var x, y := AsReals(a.candidate.key), AsReals(b.candidate.key);
    CompareFlips(x, y);
    CompareEqual(x, y);
    assert |a.candidate.key| == |x| && |b.candidate.key| == |y|;
    forall i | 0 <= i < |x|
      ensures a.candidate.key[i] == b.candidate.key[i]
    {
      assert x[i] == y[i];
    }
  }

  // ----- rearranging a list -----

  lemma Split<T>(xs: seq<T>)
    requires xs != []
    ensures xs == xs[..|xs| - 1] + [xs[|xs| - 1]]
  {
  }

  /** `b` is `a` rearranged, and its last element stands at `i` in `a`. */
  lemma TakeOut<T>(a: seq<T>, b: seq<T>) returns (i: nat)
    requires multiset(a) == multiset(b) && b != []
    ensures i < |a| && a[i] == b[|b| - 1]
    ensures a == a[..i] + ([a[i]] + a[i + 1..])
    ensures multiset(a[..i] + a[i + 1..]) == multiset(b[..|b| - 1])
  {
    var x := b[|b| - 1];
    Split(b);
    assert x in multiset(b);
    assert x in multiset(a);
    i :| 0 <= i < |a| && a[i] == x;
    assert a == a[..i] + ([a[i]] + a[i + 1..]);
    assert multiset(a) == multiset(a[..i]) + multiset{x} + multiset(a[i + 1..]);
    assert multiset(b) == multiset(b[..|b| - 1]) + multiset{x};
    assert multiset(b[..|b| - 1]) == multiset(b) - multiset{x};
    assert multiset(a[..i] + a[i + 1..]) == multiset(a) - multiset{x};
  }

  lemma {:induction false} EligibleConcat(a: seq<Candidate>, b: seq<Candidate>, s: Setting)
    ensures Eligible(a + b, s) == Eligible(a, s) + Eligible(b, s)
    ensures Excluded(a + b, s) == Excluded(a, s) + Excluded(b, s)
  {
    if b == [] {
      assert a + b == a;
    } else {
      var n := |b| - 1;
      assert (a + b)[..|a + b| - 1] == a + b[..n];
      EligibleConcat(a, b[..n], s);
      var judged := Judge(b[n], s);
      var row, out := if judged.Ok? then [judged.value] else [], if judged.Err? then [judged.error] else [];
      assert Eligible(b, s) == Eligible(b[..n], s) + row && Eligible(a + b, s) == Eligible(a + b[..n], s) + row;
      assert Excluded(b, s) == Excluded(b[..n], s) + out && Excluded(a + b, s) == Excluded(a + b[..n], s) + out;
      Assoc(Eligible(a, s), Eligible(b[..n], s), row);
      Assoc(Excluded(a, s), Excluded(b[..n], s), out);
    }
  }

  lemma EligibleWithout(a: seq<Candidate>, i: nat, s: Setting)
    requires i < |a| && a == a[..i] + ([a[i]] + a[i + 1..])
    ensures multiset(Eligible(a, s)) == multiset(Eligible(a[..i] + a[i + 1..], s)) + multiset(Eligible([a[i]], s))
    ensures multiset(Excluded(a, s)) == multiset(Excluded(a[..i] + a[i + 1..], s)) + multiset(Excluded([a[i]], s))
  {
    var x, y, z := a[..i], [a[i]], a[i + 1..];
    EligibleConcat(x, y + z, s);
    EligibleConcat(y, z, s);
    EligibleConcat(x, z, s);
    MiddleOut(Eligible(x, s), Eligible(y, s), Eligible(z, s));
    MiddleOut(Excluded(x, s), Excluded(y, s), Excluded(z, s));
  }

  lemma MiddleOut<T>(x: seq<T>, y: seq<T>, z: seq<T>)
    ensures multiset(x + (y + z)) == multiset(x + z) + multiset(y)
  {
  }

  lemma {:induction false} EligiblePermutes(a: seq<Candidate>, b: seq<Candidate>, s: Setting)
    requires multiset(a) == multiset(b)
    ensures multiset(Eligible(a, s)) == multiset(Eligible(b, s))
    ensures multiset(Excluded(a, s)) == multiset(Excluded(b, s))
    decreases |b|
  {
    if b == [] {
      assert |multiset(a)| == 0;
      assert a == [];
    } else {
      var i := TakeOut(a, b);
      var n := |b| - 1;
      EligiblePermutes(a[..i] + a[i + 1..], b[..n], s);
      EligibleWithout(a, i, s);
      Split(b);
      EligibleConcat(b[..n], [b[n]], s);
    }
  }

  lemma {:induction false} SlugsConcat(a: seq<Candidate>, b: seq<Candidate>)
    ensures Slugs(a + b) == Slugs(a) + Slugs(b)
  {
  }

  lemma {:induction false} SlugsPermute(a: seq<Candidate>, b: seq<Candidate>)
    requires multiset(a) == multiset(b)
    ensures multiset(Slugs(a)) == multiset(Slugs(b))
    decreases |b|
  {
    if b == [] {
      assert |multiset(a)| == 0;
    } else {
      var i := TakeOut(a, b);
      var n := |b| - 1;
      SlugsPermute(a[..i] + a[i + 1..], b[..n]);
      SlugsConcat(a[..i], a[i + 1..]);
      SlugsConcat(a[..i], [a[i]] + a[i + 1..]);
      SlugsConcat([a[i]], a[i + 1..]);
      Split(b);
      SlugsConcat(b[..n], [b[n]]);
      assert Slugs([a[i]]) == Slugs([b[n]]);
    }
  }

  // ----- the pool -----

  lemma CountTwo(s: seq<string>, i: nat, j: nat)
    requires i < j < |s| && s[i] == s[j]
    ensures multiset(s)[s[i]] >= 2
  {
    assert s == s[..i] + ([s[i]] + (s[i + 1..j] + ([s[j]] + s[j + 1..])));
  }

  /** Two candidates that may be pooled under one slug are one candidate. */
  lemma OneOwner(candidates: seq<Candidate>, c: Candidate, d: Candidate)
    requires c in candidates && d in candidates && c.slug == d.slug
    requires multiset(Slugs(candidates))[c.slug] == 1
    ensures c == d
  {
    var i :| 0 <= i < |candidates| && candidates[i] == c;
    var j :| 0 <= j < |candidates| && candidates[j] == d;
    if i < j {
      CountTwo(Slugs(candidates), i, j);
    } else if j < i {
      CountTwo(Slugs(candidates), j, i);
    }
  }

  predicate OneEach(candidates: seq<Candidate>, counts: multiset<string>) {
    forall i, j :: 0 <= i < |candidates| && 0 <= j < |candidates|
      && Pooled(candidates[i], counts) && Pooled(candidates[j], counts) && candidates[i].slug == candidates[j].slug
      ==> candidates[i] == candidates[j]
  }

  predicate Owns(c: Candidate, counts: multiset<string>, slug: string, copies: int) {
    Pooled(c, counts) && c.slug == slug && Copies(c) == copies
  }

  /** Some candidate is pooled under `slug` with `copies`. */
  predicate Owned(candidates: seq<Candidate>, counts: multiset<string>, slug: string, copies: int) {
    exists i :: 0 <= i < |candidates| && Owns(candidates[i], counts, slug, copies)
  }

  lemma {:induction false} PoolHolds(candidates: seq<Candidate>, counts: multiset<string>, slug: string, copies: int)
    requires OneEach(candidates, counts)
    ensures Owned(candidates, counts, slug, copies)
       <==> slug in PoolOf(candidates, counts) && PoolOf(candidates, counts)[slug] == copies
  {
    if candidates != [] {
      PoolHolds(candidates[..|candidates| - 1], counts, slug, copies);
      OwnedStep(candidates, counts, slug, copies);
    }
  }

  lemma OwnedStep(candidates: seq<Candidate>, counts: multiset<string>, slug: string, copies: int)
    requires candidates != [] && OneEach(candidates, counts)
    ensures Owned(candidates, counts, slug, copies)
       <==> (var last := candidates[|candidates| - 1];
             if Pooled(last, counts) && last.slug == slug then Copies(last) == copies
             else Owned(candidates[..|candidates| - 1], counts, slug, copies))
  {
    var n := |candidates| - 1;
    if i :| 0 <= i < |candidates| && Owns(candidates[i], counts, slug, copies) {
      if Pooled(candidates[n], counts) && candidates[n].slug == slug {
        assert candidates[i] == candidates[n];
      } else {
        assert candidates[..n][i] == candidates[i];
      }
    }
  }

  lemma OwnedMoves(a: seq<Candidate>, b: seq<Candidate>, counts: multiset<string>, slug: string, copies: int)
    requires multiset(a) == multiset(b) && Owned(a, counts, slug, copies)
    ensures Owned(b, counts, slug, copies)
  {
    var i :| 0 <= i < |a| && Owns(a[i], counts, slug, copies);
    assert a[i] in multiset(a);
    assert a[i] in multiset(b);
    var j :| 0 <= j < |b| && b[j] == a[i];
  }

  lemma PoolAgrees(a: seq<Candidate>, b: seq<Candidate>, counts: multiset<string>, slug: string)
    requires multiset(a) == multiset(b) && OneEach(a, counts) && OneEach(b, counts)
    ensures slug in PoolOf(a, counts) ==>
      slug in PoolOf(b, counts) && PoolOf(b, counts)[slug] == PoolOf(a, counts)[slug]
  {
    if slug in PoolOf(a, counts) {
      var copies := PoolOf(a, counts)[slug];
      PoolHolds(a, counts, slug, copies);
      OwnedMoves(a, b, counts, slug, copies);
      PoolHolds(b, counts, slug, copies);
    }
  }

  lemma PoolPermutes(a: seq<Candidate>, b: seq<Candidate>)
    requires multiset(a) == multiset(b)
    ensures PoolOf(a, multiset(Slugs(a))) == PoolOf(b, multiset(Slugs(b)))
  {
    SlugsPermute(a, b);
    OwnersUnique(a);
    OwnersUnique(b);
    SamePool(a, b, multiset(Slugs(a)));
  }

  lemma SamePool(a: seq<Candidate>, b: seq<Candidate>, counts: multiset<string>)
    requires multiset(a) == multiset(b) && OneEach(a, counts) && OneEach(b, counts)
    ensures PoolOf(a, counts) == PoolOf(b, counts)
  {
    var p, q := PoolOf(a, counts), PoolOf(b, counts);
    forall slug
      ensures slug in p ==> slug in q && q[slug] == p[slug]
      ensures slug in q ==> slug in p && p[slug] == q[slug]
    {
      PoolAgrees(a, b, counts, slug);
      PoolAgrees(b, a, counts, slug);
    }
    SameMaps(p, q);
  }

  lemma SameMaps(p: map<string, int>, q: map<string, int>)
    requires forall k :: k in p ==> k in q && q[k] == p[k]
    requires forall k :: k in q ==> k in p && p[k] == q[k]
    ensures p == q
  {
  }

  lemma OwnersUnique(candidates: seq<Candidate>)
    ensures OneEach(candidates, multiset(Slugs(candidates)))
  {
    var counts := multiset(Slugs(candidates));
    forall i, j | 0 <= i < |candidates| && 0 <= j < |candidates|
      && Pooled(candidates[i], counts) && Pooled(candidates[j], counts) && candidates[i].slug == candidates[j].slug
      ensures candidates[i] == candidates[j]
    {
      OneOwner(candidates, candidates[i], candidates[j]);
    }
  }

  // ----- the plan -----

  predicate DistinctKeys(candidates: seq<Candidate>) {
    forall i, j :: 0 <= i < j < |candidates| ==> candidates[i].key != candidates[j].key
  }

  lemma {:induction false} EligibleFrom(candidates: seq<Candidate>, s: Setting)
    ensures forall row :: row in Eligible(candidates, s) ==>
      row.candidate in candidates && Judge(row.candidate, s) == Ok(row)
  {
    if candidates != [] {
      EligibleFrom(candidates[..|candidates| - 1], s);
      Split(candidates);
    }
  }

  lemma EligibleNoTies(candidates: seq<Candidate>, s: Setting)
    requires DistinctKeys(candidates)
    ensures NoTies(Sort(Eligible(candidates, s), RankedFirst), RankedFirst)
  {
    var rows := Eligible(candidates, s);
    var sorted := Sort(rows, RankedFirst);
    EligibleFrom(candidates, s);
    forall i, j | 0 <= i < |sorted| && 0 <= j < |sorted|
      && RankedFirst(sorted[i], sorted[j]) && RankedFirst(sorted[j], sorted[i])
      ensures sorted[i] == sorted[j]
    {
      TiesShareKeys(sorted[i], sorted[j]);
      assert sorted[i] in multiset(sorted) && sorted[j] in multiset(sorted);
      assert sorted[i] in rows && sorted[j] in rows;
      SameKeySameCandidate(candidates, sorted[i].candidate, sorted[j].candidate);
    }
  }

  lemma SameKeySameCandidate(candidates: seq<Candidate>, c: Candidate, d: Candidate)
    requires DistinctKeys(candidates) && c in candidates && d in candidates && c.key == d.key
    ensures c == d
  {
    var i :| 0 <= i < |candidates| && candidates[i] == c;
    var j :| 0 <= j < |candidates| && candidates[j] == d;
    if i != j {
      assert candidates[i].key == candidates[j].key;
    }
  }

  lemma StartPermutes(a: seq<Candidate>, b: seq<Candidate>, s: Setting)
    requires multiset(a) == multiset(b) && DistinctKeys(a)
    ensures Sort(Eligible(a, s), RankedFirst) == Sort(Eligible(b, s), RankedFirst)
  {
    EligiblePermutes(a, b, s);
    RankingIsTotalPreorder();
    SortSorted(Eligible(a, s), RankedFirst);
    SortSorted(Eligible(b, s), RankedFirst);
    EligibleNoTies(a, s);
    SortedUnique(Sort(Eligible(a, s), RankedFirst), Sort(Eligible(b, s), RankedFirst), RankedFirst);
  }

  /**
   * With distinct keys, rearranging the candidates changes neither the rows nor the totals of
   * the plan; the exclusions are the same up to order.
   */
  lemma PlanIsOrderIndependent(r1: Request, r2: Request, clearing: Market -> real)
    requires r2 == r1.(candidates := r2.candidates)
    requires multiset(r1.candidates) == multiset(r2.candidates) && DistinctKeys(r1.candidates)
    ensures var p1, p2 := Select(r1, clearing), Select(r2, clearing);
            p2 == p1.(excluded := p2.excluded) && multiset(p1.excluded) == multiset(p2.excluded)
  {
    SlugsPermute(r1.candidates, r2.candidates);
    PoolPermutes(r1.candidates, r2.candidates);
    var s := SettingOf(r1, clearing);
    assert s == SettingOf(r2, clearing);
    StartPermutes(r1.candidates, r2.candidates, s);
    EligiblePermutes(r1.candidates, r2.candidates, s);
  }
}
