/** What a scan has counted, in terms of the groups its matches captured, and which scans fit the budget. */
module ScanCounts {
  import opened Outcome
  import opened Sequences
  import opened PatternBudget

  // ----- counting matches -----

  /** How many of the elements have the property. */
  function Times<T>(xs: seq<T>, p: T -> bool): nat {
    if xs == [] then 0 else Times(xs[..|xs| - 1], p) + if p(xs[|xs| - 1]) then 1 else 0
  }

  /** The sum over all haystacks. */
  function InAll(haystacks: seq<Found>, n: Found -> nat): nat {
    if haystacks == [] then 0 else InAll(haystacks[..|haystacks| - 1], n) + n(haystacks[|haystacks| - 1])
  }

  predicate Complete(cap: (Group, Group)) {
    cap.0.Some? && cap.1.Some?
  }

  /** The first group is the account id, in lower case, and the second the nonce. */
  function Names(t: Texts, id: string, nonce: string): ((Group, Group)) -> bool {
    (cap: (Group, Group)) => Complete(cap) && t.lower(t.decode(cap.0.value)) == id && t.decode(cap.1.value) == nonce
  }

  function Incomplete(): ((Group, Group)) -> bool {
    (cap: (Group, Group)) => !Complete(cap)
  }

  function Shows(t: Texts, value: string): Group -> bool {
    (cap: Group) => cap.Some? && t.decode(cap.value) == value
  }

  function CredentialMatches(t: Texts, id: string, nonce: string): Found -> nat {
    (f: Found) => Times(f.creds, Names(t, id, nonce))
  }

  function BuildMatches(t: Texts, value: string): Found -> nat {
    (f: Found) => Times(f.builds, Shows(t, value))
  }

  function ContentMatches(t: Texts, value: string): Found -> nat {
    (f: Found) => Times(f.cts, Shows(t, value))
  }

  function UselessMatches(): Found -> nat {
    (f: Found) => Times(f.creds, Incomplete())
  }

  function AllMatches(): Found -> nat {
    (f: Found) => |f.creds| + |f.builds| + |f.cts|
  }

  // ----- counting bytes -----

  /** The bytes a credential match retains: both groups, if it has both. */
  function PairBytes(caps: seq<(Group, Group)>): nat {
    if caps == [] then 0
    else
      var last := caps[|caps| - 1];
      PairBytes(caps[..|caps| - 1]) + if Complete(last) then |last.0.value| + |last.1.value| else 0
  }

  function GroupBytes(caps: seq<Group>): nat {
    if caps == [] then 0
    else GroupBytes(caps[..|caps| - 1]) + if caps[|caps| - 1].Some? then |caps[|caps| - 1].value| else 0
  }

  function AllBytes(): Found -> nat {
    (f: Found) => PairBytes(f.creds) + GroupBytes(f.builds) + GroupBytes(f.cts)
  }

  /** No group that is retained is longer than the limit. */
  predicate NoneLong(b: Budget, f: Found) {
    && (forall i :: 0 <= i < |f.creds| ==> ShortPair(f.creds[i], b.maxCaptureLen))
    && (forall i :: 0 <= i < |f.builds| ==> ShortGroup(f.builds[i], b.maxCaptureLen))
    && (forall i :: 0 <= i < |f.cts| ==> ShortGroup(f.cts[i], b.maxCaptureLen))
  }

  // ----- one kind of match -----

  lemma {:induction false} PairKeys(t: Texts, caps: seq<(Group, Group)>, id: string, nonce: string)
    ensures multiset(KeysOf(Credentials(t, caps)))[(id, nonce)] == Times(caps, Names(t, id, nonce))
    ensures Unusable(Credentials(t, caps)) == Times(caps, Incomplete())
  {
    if caps != [] {
      var n := |caps| - 1;
      PairKeys(t, caps[..n], id, nonce);
      PairKeysAt(t, caps, n, KeysOf(Credentials(t, caps[..n])));
      assert Names(t, id, nonce)(caps[n]) <==> Complete(caps[n]) && PairOf(t, caps[n]) == (id, nonce);
    }
  }

  function PairOf(t: Texts, cap: (Group, Group)): (string, string)
    requires Complete(cap)
  {
    (t.lower(t.decode(cap.0.value)), t.decode(cap.1.value))
  }

  lemma PairKeysAt(t: Texts, caps: seq<(Group, Group)>, n: nat, before: seq<(string, string)>)
    requires n == |caps| - 1 && before == KeysOf(Credentials(t, caps[..n]))
    ensures KeysOf(Credentials(t, caps)) == before + if Complete(caps[n]) then [PairOf(t, caps[n])] else []
    ensures Unusable(Credentials(t, caps)) == Unusable(Credentials(t, caps[..n])) + if Complete(caps[n]) then 0 else 1
  {
    assert Credentials(t, caps)[..n] == Credentials(t, caps[..n]);
  }

  lemma {:induction false} GroupKeys(t: Texts, caps: seq<Group>, value: string)
    ensures multiset(KeysOf(Singles(t, caps)))[value] == Times(caps, Shows(t, value))
  {
    if caps != [] {
      var n := |caps| - 1;
      GroupKeys(t, caps[..n], value);
      assert Singles(t, caps)[..n] == Singles(t, caps[..n]);
    }
  }

  lemma {:induction false} PairLengths(t: Texts, caps: seq<(Group, Group)>)
    ensures Sum(LengthsOf(Credentials(t, caps))) == PairBytes(caps)
  {
    if caps != [] {
      var n := |caps| - 1;
      PairLengths(t, caps[..n]);
      var lengths := LengthsAt(t, caps, n);
      if Complete(caps[n]) {
        TwoMore(lengths, |caps[n].0.value|, |caps[n].1.value|, 0);
      }
    }
  }

  predicate ShortPair(cap: (Group, Group), limit: nat) {
    Complete(cap) ==> |cap.0.value| <= limit && |cap.1.value| <= limit
  }

  lemma {:induction false} PairsShort(t: Texts, caps: seq<(Group, Group)>, limit: nat)
    ensures NoneOver(LengthsOf(Credentials(t, caps)), limit) <==> forall i :: 0 <= i < |caps| ==> ShortPair(caps[i], limit)
  {
    if caps != [] {
      var n := |caps| - 1;
      PairsShort(t, caps[..n], limit);
      var lengths := LengthsAt(t, caps, n);
      assert forall i :: 0 <= i < n ==> caps[..n][i] == caps[i];
      if Complete(caps[n]) {
        TwoMore(lengths, |caps[n].0.value|, |caps[n].1.value|, limit);
      }
    }
  }

  lemma LengthsAt(t: Texts, caps: seq<(Group, Group)>, n: nat) returns (lengths: seq<nat>)
    requires n == |caps| - 1
    ensures lengths == LengthsOf(Credentials(t, caps[..n]))
    ensures LengthsOf(Credentials(t, caps))
         == if Complete(caps[n]) then lengths + [|caps[n].0.value|, |caps[n].1.value|] else lengths
  {
    assert Credentials(t, caps)[..n] == Credentials(t, caps[..n]);
    lengths := LengthsOf(Credentials(t, caps[..n]));
    Unit(lengths);
  }

  lemma TwoMore(lengths: seq<nat>, a: nat, c: nat, limit: nat)
    ensures Sum(lengths + [a, c]) == Sum(lengths) + a + c
    ensures NoneOver(lengths + [a, c], limit) <==> NoneOver(lengths, limit) && a <= limit && c <= limit
  {
    TwoLengths(a, c);
    SumAppends(lengths, [a, c]);
    NoneOverAppends(lengths, [a, c], limit);
  }

  lemma {:induction false} GroupLengths(t: Texts, caps: seq<Group>)
    ensures Sum(LengthsOf(Singles(t, caps))) == GroupBytes(caps)
  {
    if caps != [] {
      var n := |caps| - 1;
      GroupLengths(t, caps[..n]);
      var lengths := GroupLengthsAt(t, caps, n);
      if caps[n].Some? {
        OneMoreLength(lengths, |caps[n].value|, 0);
      }
    }
  }

  predicate ShortGroup(cap: Group, limit: nat) {
    cap.Some? ==> |cap.value| <= limit
  }

  lemma {:induction false} GroupsShort(t: Texts, caps: seq<Group>, limit: nat)
    ensures NoneOver(LengthsOf(Singles(t, caps)), limit) <==> forall i :: 0 <= i < |caps| ==> ShortGroup(caps[i], limit)
  {
    if caps != [] {
      var n := |caps| - 1;
      GroupsShort(t, caps[..n], limit);
      var lengths := GroupLengthsAt(t, caps, n);
      assert forall i :: 0 <= i < n ==> caps[..n][i] == caps[i];
      if caps[n].Some? {
        OneMoreLength(lengths, |caps[n].value|, limit);
      }
    }
  }

  lemma GroupLengthsAt(t: Texts, caps: seq<Group>, n: nat) returns (lengths: seq<nat>)
    requires n == |caps| - 1
    ensures lengths == LengthsOf(Singles(t, caps[..n]))
    ensures LengthsOf(Singles(t, caps)) == if caps[n].Some? then lengths + [|caps[n].value|] else lengths
  {
    assert Singles(t, caps)[..n] == Singles(t, caps[..n]);
    lengths := LengthsOf(Singles(t, caps[..n]));
    Unit(lengths);
  }

  lemma OneMoreLength(lengths: seq<nat>, a: nat, limit: nat)
    ensures Sum(lengths + [a]) == Sum(lengths) + a
    ensures NoneOver(lengths + [a], limit) <==> NoneOver(lengths, limit) && a <= limit
  {
    OneLength(a);
    SumAppends(lengths, [a]);
    NoneOverAppends(lengths, [a], limit);
    assert [a][0] == a;
  }

  // ----- the whole scan -----

  /** The accumulator after all haystacks, without a budget. */
  function AfterScan(t: Texts, haystacks: seq<Found>): Tally {
    if haystacks == [] then Tally(map[], map[], map[], 0, 0, 0)
    else AfterAll(t, AfterScan(t, haystacks[..|haystacks| - 1]), haystacks[|haystacks| - 1])
  }

  predicate NoneLongInAll(b: Budget, haystacks: seq<Found>) {
    forall i :: 0 <= i < |haystacks| ==> NoneLong(b, haystacks[i])
  }

  lemma KeysGrow<K>(held: map<K, nat>, keys: seq<K>)
    ensures |held| <= |Counted(held, keys)|
  {
    EntriesGrow(held, keys, 0);
    assert keys[..0] == [];
  }

  /** A haystack fits exactly if nothing in it is long and all limits are kept after it. */
  lemma FitsMeans(t: Texts, b: Budget, s: Tally, f: Found)
    ensures AllFit(t, b, s, f) <==> NoneLong(b, f) && Within(b, AfterAll(t, s, f))
  {
    PairLengths(t, f.creds);
    PairsShort(t, f.creds, b.maxCaptureLen);
    GroupLengths(t, f.builds);
    GroupLengths(t, f.cts);
    GroupsShort(t, f.builds, b.maxCaptureLen);
    GroupsShort(t, f.cts, b.maxCaptureLen);
  }

  lemma WithinBefore(t: Texts, b: Budget, s: Tally, f: Found)
    requires Within(b, AfterAll(t, s, f))
    ensures Within(b, s)
  {
    KeysGrow(s.creds, KeysOf(Credentials(t, f.creds)));
    KeysGrow(s.builds, KeysOf(Singles(t, f.builds)));
    KeysGrow(s.cts, KeysOf(Singles(t, f.cts)));
  }

  lemma {:induction false} CountScanMeans(t: Texts, b: Budget, haystacks: seq<Found>)
    ensures CountScan(t, b, haystacks)
         == if NoneLongInAll(b, haystacks) && Within(b, AfterScan(t, haystacks)) then Some(AfterScan(t, haystacks)) else None
  {
    if haystacks != [] {
      var n := |haystacks| - 1;
      var init, f := haystacks[..n], haystacks[n];
      CountScanMeans(t, b, init);
      NoneLongSplit(b, haystacks, init, f);
      OneMoreCounted(t, b, haystacks, init, f, AfterScan(t, init));
    }
  }

  lemma NoneLongSplit(b: Budget, haystacks: seq<Found>, init: seq<Found>, f: Found)
    requires haystacks != [] && init == haystacks[..|haystacks| - 1] && f == haystacks[|haystacks| - 1]
    ensures NoneLongInAll(b, haystacks) <==> NoneLongInAll(b, init) && NoneLong(b, f)
  {
    assert haystacks == init + [f];
  }

  lemma OneMoreCounted(t: Texts, b: Budget, haystacks: seq<Found>, init: seq<Found>, f: Found, before: Tally)
    requires haystacks != [] && init == haystacks[..|haystacks| - 1] && f == haystacks[|haystacks| - 1]
    requires before == AfterScan(t, init)
    requires CountScan(t, b, init) == if NoneLongInAll(b, init) && Within(b, before) then Some(before) else None
    ensures CountScan(t, b, haystacks)
         == if NoneLongInAll(b, init) && NoneLong(b, f) && Within(b, AfterScan(t, haystacks)) then Some(AfterScan(t, haystacks))
            else None
  {
    FitsMeans(t, b, before, f);
    if Within(b, AfterAll(t, before, f)) {
      WithinBefore(t, b, before, f);
    }
  }

  /** The table has the key with this count, and lacks it if that is 0. */
  predicate Has<K>(table: map<K, nat>, key: K, n: nat) {
    if n == 0 then key !in table else key in table && table[key] == n
  }

  lemma CountGrows<K>(held: map<K, nat>, keys: seq<K>, key: K, n: nat, more: nat)
    requires Has(held, key, n) && multiset(keys)[key] == more
    ensures Has(Counted(held, keys), key, n + more)
  {
    CountedIsExact(held, keys, key);
  }

  lemma {:induction false} AfterScanCredentials(t: Texts, haystacks: seq<Found>, id: string, nonce: string)
    ensures Has(AfterScan(t, haystacks).creds, (id, nonce), InAll(haystacks, CredentialMatches(t, id, nonce)))
    ensures AfterScan(t, haystacks).withoutGroups == InAll(haystacks, UselessMatches())
  {
    if haystacks != [] {
      var n := |haystacks| - 1;
      var f := haystacks[n];
      AfterScanCredentials(t, haystacks[..n], id, nonce);
      PairKeys(t, f.creds, id, nonce);
      CountGrows(AfterScan(t, haystacks[..n]).creds, KeysOf(Credentials(t, f.creds)), (id, nonce),
                 InAll(haystacks[..n], CredentialMatches(t, id, nonce)), Times(f.creds, Names(t, id, nonce)));
    }
  }

  lemma {:induction false} AfterScanValues(t: Texts, haystacks: seq<Found>, value: string)
    ensures Has(AfterScan(t, haystacks).builds, value, InAll(haystacks, BuildMatches(t, value)))
    ensures Has(AfterScan(t, haystacks).cts, value, InAll(haystacks, ContentMatches(t, value)))
  {
    if haystacks != [] {
      var n := |haystacks| - 1;
      var f, before := haystacks[n], AfterScan(t, haystacks[..n]);
      AfterScanValues(t, haystacks[..n], value);
      GroupKeys(t, f.builds, value);
      GroupKeys(t, f.cts, value);
      CountGrows(before.builds, KeysOf(Singles(t, f.builds)), value,
                 InAll(haystacks[..n], BuildMatches(t, value)), Times(f.builds, Shows(t, value)));
      CountGrows(before.cts, KeysOf(Singles(t, f.cts)), value,
                 InAll(haystacks[..n], ContentMatches(t, value)), Times(f.cts, Shows(t, value)));
    }
  }

  lemma {:induction false} AfterScanTotals(t: Texts, haystacks: seq<Found>)
    ensures AfterScan(t, haystacks).matches == InAll(haystacks, AllMatches())
    ensures AfterScan(t, haystacks).bytes == InAll(haystacks, AllBytes())
  {
    if haystacks != [] {
      var n := |haystacks| - 1;
      var f := haystacks[n];
      AfterScanTotals(t, haystacks[..n]);
      PairLengths(t, f.creds);
      GroupLengths(t, f.builds);
      GroupLengths(t, f.cts);
    }
  }

  /**
   * What a completed scan has counted: under each account id and nonce the credential matches with these two groups,
   * under each build and content value the matches that show it, and the credential matches without both groups. A
   * match that lies in the overlap of two haystacks is a match of both.
   */
  lemma ScanCountsExactly(t: Texts, b: Budget, haystacks: seq<Found>, s: Tally, id: string, nonce: string, value: string)
    requires CountScan(t, b, haystacks) == Some(s)
    ensures Has(s.creds, (id, nonce), InAll(haystacks, CredentialMatches(t, id, nonce)))
    ensures Has(s.builds, value, InAll(haystacks, BuildMatches(t, value)))
    ensures Has(s.cts, value, InAll(haystacks, ContentMatches(t, value)))
    ensures s.withoutGroups == InAll(haystacks, UselessMatches())
  {
    CountScanMeans(t, b, haystacks);
    AfterScanCredentials(t, haystacks, id, nonce);
    AfterScanValues(t, haystacks, value);
  }

  // ----- the entries -----

  /** The account ids and nonces matched in a haystack. */
  function Pairs(t: Texts, caps: seq<(Group, Group)>): set<(string, string)> {
    set i | 0 <= i < |caps| && Complete(caps[i]) :: (t.lower(t.decode(caps[i].0.value)), t.decode(caps[i].1.value))
  }

  function Values(t: Texts, caps: seq<Group>): set<string> {
    set i | 0 <= i < |caps| && caps[i].Some? :: t.decode(caps[i].value)
  }

  function AllPairs(t: Texts, haystacks: seq<Found>): set<(string, string)> {
    set h, pair | 0 <= h < |haystacks| && pair in Pairs(t, haystacks[h].creds) :: pair
  }

  function AllBuilds(t: Texts, haystacks: seq<Found>): set<string> {
    set h, value | 0 <= h < |haystacks| && value in Values(t, haystacks[h].builds) :: value
  }

  function AllContents(t: Texts, haystacks: seq<Found>): set<string> {
    set h, value | 0 <= h < |haystacks| && value in Values(t, haystacks[h].cts) :: value
  }

  lemma {:induction false} CountedKeys<K>(held: map<K, nat>, keys: seq<K>)
    ensures forall key :: key in Counted(held, keys) <==> key in held || key in keys
  {
    forall key
      ensures key in Counted(held, keys) <==> key in held || key in keys
    {
      CountedIsExact(held, keys, key);
    }
  }

  lemma {:induction false} PairsAre(t: Texts, caps: seq<(Group, Group)>, pair: (string, string))
    ensures pair in KeysOf(Credentials(t, caps)) <==> pair in Pairs(t, caps)
  {
    if caps != [] {
      var n := |caps| - 1;
      PairsAre(t, caps[..n], pair);
      assert Credentials(t, caps)[..n] == Credentials(t, caps[..n]);
      assert forall i :: 0 <= i < n ==> caps[..n][i] == caps[i];
    }
  }

  lemma {:induction false} ValuesAre(t: Texts, caps: seq<Group>, value: string)
    ensures value in KeysOf(Singles(t, caps)) <==> value in Values(t, caps)
  {
    if caps != [] {
      var n := |caps| - 1;
      ValuesAre(t, caps[..n], value);
      assert Singles(t, caps)[..n] == Singles(t, caps[..n]);
      assert forall i :: 0 <= i < n ==> caps[..n][i] == caps[i];
    }
  }

  lemma PairsSplit(t: Texts, haystacks: seq<Found>, pair: (string, string))
    requires haystacks != []
    ensures pair in AllPairs(t, haystacks)
       <==> pair in AllPairs(t, haystacks[..|haystacks| - 1]) || pair in Pairs(t, haystacks[|haystacks| - 1].creds)
  {
  }

  lemma {:induction false} AfterScanPairs(t: Texts, haystacks: seq<Found>, pair: (string, string))
    ensures pair in AfterScan(t, haystacks).creds <==> pair in AllPairs(t, haystacks)
  {
    if haystacks != [] {
      var n := |haystacks| - 1;
      var f, before := haystacks[n], AfterScan(t, haystacks[..n]);
      AfterScanPairs(t, haystacks[..n], pair);
      PairsAre(t, f.creds, pair);
      CountedKeys(before.creds, KeysOf(Credentials(t, f.creds)));
      PairsSplit(t, haystacks, pair);
    }
  }

  lemma BuildsSplit(t: Texts, haystacks: seq<Found>, value: string)
    requires haystacks != []
    ensures value in AllBuilds(t, haystacks)
       <==> value in AllBuilds(t, haystacks[..|haystacks| - 1]) || value in Values(t, haystacks[|haystacks| - 1].builds)
  {
  }

  lemma {:induction false} AfterScanBuilds(t: Texts, haystacks: seq<Found>, value: string)
    ensures value in AfterScan(t, haystacks).builds <==> value in AllBuilds(t, haystacks)
  {
    if haystacks != [] {
      var n := |haystacks| - 1;
      var f, before := haystacks[n], AfterScan(t, haystacks[..n]);
      AfterScanBuilds(t, haystacks[..n], value);
      ValuesAre(t, f.builds, value);
      CountedKeys(before.builds, KeysOf(Singles(t, f.builds)));
      BuildsSplit(t, haystacks, value);
    }
  }

  lemma ContentsSplit(t: Texts, haystacks: seq<Found>, value: string)
    requires haystacks != []
    ensures value in AllContents(t, haystacks)
       <==> value in AllContents(t, haystacks[..|haystacks| - 1]) || value in Values(t, haystacks[|haystacks| - 1].cts)
  {
  }

  lemma {:induction false} AfterScanContents(t: Texts, haystacks: seq<Found>, value: string)
    ensures value in AfterScan(t, haystacks).cts <==> value in AllContents(t, haystacks)
  {
    if haystacks != [] {
      var n := |haystacks| - 1;
      var f, before := haystacks[n], AfterScan(t, haystacks[..n]);
      AfterScanContents(t, haystacks[..n], value);
      ValuesAre(t, f.cts, value);
      CountedKeys(before.cts, KeysOf(Singles(t, f.cts)));
      ContentsSplit(t, haystacks, value);
    }
  }

  lemma TableSize<K>(table: map<K, nat>, keys: set<K>)
    requires forall key :: key in table <==> key in keys
    ensures |table| == |keys|
  {
    assert table.Keys == keys;
  }

  /** A scan completes, the clock aside, exactly if its matches, captures, bytes and distinct values all together keep the limits. */
  lemma ScanFitsExactly(t: Texts, b: Budget, haystacks: seq<Found>)
    ensures CountScan(t, b, haystacks).Some? <==>
            && InAll(haystacks, AllMatches()) <= b.maxMatches
            && InAll(haystacks, AllBytes()) <= b.maxBytes
            && NoneLongInAll(b, haystacks)
            && |AllPairs(t, haystacks)| <= b.maxEntries
            && |AllBuilds(t, haystacks)| <= b.maxEntries
            && |AllContents(t, haystacks)| <= b.maxEntries
  {
    var s := AfterScan(t, haystacks);
    CountScanMeans(t, b, haystacks);
    AfterScanTotals(t, haystacks);
    forall pair
      ensures pair in s.creds <==> pair in AllPairs(t, haystacks)
    {
      AfterScanPairs(t, haystacks, pair);
    }
    forall value
      ensures value in s.builds <==> value in AllBuilds(t, haystacks)
      ensures value in s.cts <==> value in AllContents(t, haystacks)
    {
      AfterScanBuilds(t, haystacks, value);
      AfterScanContents(t, haystacks, value);
    }
    TableSize(s.creds, AllPairs(t, haystacks));
    TableSize(s.builds, AllBuilds(t, haystacks));
    TableSize(s.cts, AllContents(t, haystacks));
  }
}
