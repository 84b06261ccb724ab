/** A stable sort by a comparison, as the sorts of the standard libraries behave. */
module Sorting {
  ghost predicate TotalPreorder<T(!new)>(le: (T, T) -> bool) {
    && (forall x, y :: le(x, y) || le(y, x))
    && (forall x, y, z :: le(x, y) && le(y, z) ==> le(x, z))
  }

  ghost predicate Sorted<T>(xs: seq<T>, le: (T, T) -> bool) {
    forall i, j :: 0 <= i < j < |xs| ==> le(xs[i], xs[j])
  }

  function Insert<T>(x: T, xs: seq<T>, le: (T, T) -> bool): (r: seq<T>)
    ensures multiset(r) == multiset([x] + xs)
  {
    if xs == [] then [x]
    else if le(x, xs[0]) then [x] + xs
    else
      assert xs == [xs[0]] + xs[1..];
      [xs[0]] + Insert(x, xs[1..], le)
  }

  function Sort<T>(xs: seq<T>, le: (T, T) -> bool): (r: seq<T>)
    ensures multiset(r) == multiset(xs)
  {
    if xs == [] then []
    else
      assert xs == [xs[0]] + xs[1..];
      Insert(xs[0], Sort(xs[1..], le), le)
  }

  lemma {:induction false} InsertSorted<T(!new)>(x: T, xs: seq<T>, le: (T, T) -> bool)
    requires TotalPreorder(le) && Sorted(xs, le)
    ensures Sorted(Insert(x, xs, le), le)
  {
    if xs != [] {
      if le(x, xs[0]) {
        forall j | 0 <= j < |xs|
          ensures le(x, xs[j])
        {
          assert j > 0 ==> le(xs[0], xs[j]);
        }
      } else {
        InsertSorted(x, xs[1..], le);
        var rest := Insert(x, xs[1..], le);
        forall j | 0 <= j < |rest|
          ensures le(xs[0], rest[j])
        {
          assert rest[j] in multiset(rest);
          assert rest[j] == x || rest[j] in xs[1..];
        }
      }
    }
  }

  lemma {:induction false} SortSorted<T(!new)>(xs: seq<T>, le: (T, T) -> bool)
    requires TotalPreorder(le)
    ensures Sorted(Sort(xs, le), le)
  {
    if xs != [] {
      SortSorted(xs[1..], le);
      InsertSorted(xs[0], Sort(xs[1..], le), le);
    }
  }

  ghost predicate NoTies<T>(xs: seq<T>, le: (T, T) -> bool) {
    forall i, j :: 0 <= i < |xs| && 0 <= j < |xs| && le(xs[i], xs[j]) && le(xs[j], xs[i]) ==> xs[i] == xs[j]
  }

  lemma HeadsAgree<T>(a: seq<T>, b: seq<T>, le: (T, T) -> bool)
    requires a != [] && b != [] && Sorted(a, le) && Sorted(b, le) && NoTies(a, le)
    requires a[0] in b && b[0] in a
    ensures a[0] == b[0]
  {
    var i :| 0 <= i < |b| && b[i] == a[0];
    var j :| 0 <= j < |a| && a[j] == b[0];
    if i > 0 && j > 0 {
      assert le(a[0], a[j]) && le(b[0], b[i]);
    }
  }

  lemma TailMultiset<T>(a: seq<T>)
    requires a != []
    ensures multiset(a[1..]) == multiset(a) - multiset{a[0]}
  {
    assert a == [a[0]] + a[1..];
  }

  /** Where no two elements tie, the sorted order does not depend on the order before. */
  lemma {:induction false} SortedUnique<T>(a: seq<T>, b: seq<T>, le: (T, T) -> bool)
    requires Sorted(a, le) && Sorted(b, le) && multiset(a) == multiset(b) && NoTies(a, le)
    ensures a == b
  {
    assert |multiset(a)| == |a| && |multiset(b)| == |b|;
    if a != [] {
      assert a[0] in multiset(b) && b[0] in multiset(a);
      HeadsAgree(a, b, le);
      TailMultiset(a);
      TailMultiset(b);
      SortedUnique(a[1..], b[1..], le);
    }
  }

  /** The elements of `xs` that tie with `x`, in order. */
  function Ties<T>(xs: seq<T>, x: T, le: (T, T) -> bool): seq<T> {
    if xs == [] then []
    else (if le(xs[0], x) && le(x, xs[0]) then [xs[0]] else []) + Ties(xs[1..], x, le)
  }

  lemma {:induction false} InsertKeepsTies<T(!new)>(y: T, xs: seq<T>, x: T, le: (T, T) -> bool)
    requires TotalPreorder(le)
    ensures Ties(Insert(y, xs, le), x, le) == Ties([y] + xs, x, le)
  {
    if xs != [] && !le(y, xs[0]) {
      var head, tail := xs[0], xs[1..];
      InsertKeepsTies(y, tail, x, le);
      TiesFirst(y, tail, x, le);
      TiesFirst(y, xs, x, le);
      TiesFirst(head, Insert(y, tail, le), x, le);
      NotBoth(y, head, x, le);
    }
  }

  lemma TiesFirst<T>(y: T, xs: seq<T>, x: T, le: (T, T) -> bool)
    ensures Ties([y] + xs, x, le) == (if le(y, x) && le(x, y) then [y] else []) + Ties(xs, x, le)
  {
    assert ([y] + xs)[1..] == xs;
  }

  lemma NotBoth<T(!new)>(y: T, head: T, x: T, le: (T, T) -> bool)
    requires TotalPreorder(le) && !le(y, head)
    ensures !(le(y, x) && le(x, y) && le(head, x) && le(x, head))
  {
  }

  /** The sort is stable: elements that tie keep their order. */
  lemma {:induction false} SortKeepsTies<T(!new)>(xs: seq<T>, x: T, le: (T, T) -> bool)
    requires TotalPreorder(le)
    ensures Ties(Sort(xs, le), x, le) == Ties(xs, x, le)
  {
    if xs != [] {
      SortKeepsTies(xs[1..], x, le);
      InsertKeepsTies(xs[0], Sort(xs[1..], le), x, le);
      assert ([xs[0]] + Sort(xs[1..], le))[1..] == Sort(xs[1..], le);
    }
  }
}
