/** What a scan counts of its matches, and the budget it stays within (`aggregate_match` in `scan.rs`). */
module PatternBudget {
  import opened Outcome
  import opened Sequences

  datatype Budget = Budget(maxMatches: nat, maxCaptureLen: nat, maxEntries: nat, maxBytes: nat)

  datatype Exceeded = Elapsed | Matches | CaptureBytes | RetainedBytes | Entries

  /** Captured bytes; a group that takes no part in a match is absent. */
  type Group = Option<string>

  /** How bytes become text: lossy decoding, and lower case for account ids. */
  datatype Texts = Texts(decode: string -> string, lower: string -> string)

  function HeldFor<K>(held: map<K, nat>, key: K): nat {
    if key in held then held[key] else 0
  }

  /** The counts after some more keys. */
  function Counted<K>(held: map<K, nat>, keys: seq<K>): map<K, nat> {
    if keys == [] then held
    else
      var before := Counted(held, keys[..|keys| - 1]);
      before[keys[|keys| - 1] := HeldFor(before, keys[|keys| - 1]) + 1]
  }

  /** Each count grows by the number of times its key occurs; the keys are those held and those seen. */
  lemma {:induction false} CountedIsExact<K>(held: map<K, nat>, keys: seq<K>, key: K)
    ensures HeldFor(Counted(held, keys), key) == HeldFor(held, key) + multiset(keys)[key]
    ensures key in Counted(held, keys) <==> key in held || key in keys
  {
    if keys != [] {
      var n := |keys| - 1;
      CountedIsExact(held, keys[..n], key);
      assert keys == keys[..n] + [keys[n]];
    }
  }

  lemma {:induction false} EntriesGrow<K>(held: map<K, nat>, keys: seq<K>, n: nat)
    requires n <= |keys|
    ensures |Counted(held, keys[..n])| <= |Counted(held, keys)|
  {
    if n == |keys| {
      assert keys[..n] == keys;
    } else {
      var m := |keys| - 1;
      assert keys[..m][..n] == keys[..n];
      EntriesGrow(held, keys[..m], n);
      OneMoreKey(Counted(held, keys[..m]), keys[m]);
    }
  }

  lemma OneMoreKey<K>(held: map<K, nat>, key: K)
    ensures |held[key := HeldFor(held, key) + 1]| == if key in held then |held| else |held| + 1
  {
    var more := held[key := HeldFor(held, key) + 1];
    assert more.Keys == held.Keys + {key};
  }

  // ----- the captured values -----

  /** What a match is counted under, and the bytes it is charged; absent without its groups. */
  datatype Value<K> = Value(key: K, lengths: seq<nat>)

  function Sum(lengths: seq<nat>): nat {
    if lengths == [] then 0 else Sum(lengths[..|lengths| - 1]) + lengths[|lengths| - 1]
  }

  /** Session credentials need both groups. */
  function Credential(t: Texts, cap: (Group, Group)): Option<Value<(string, string)>> {
    if cap.0.None? || cap.1.None? then None
    else Some(Value((t.lower(t.decode(cap.0.value)), t.decode(cap.1.value)), [|cap.0.value|, |cap.1.value|]))
  }

  function Single(t: Texts, cap: Group): Option<Value<string>> {
    if cap.None? then None else Some(Value(t.decode(cap.value), [|cap.value|]))
  }

  /** The keys of the matches that can be counted, in order. */
  function KeysOf<K>(values: seq<Option<Value<K>>>): seq<K> {
    if values == [] then []
    else
      var last := values[|values| - 1];
      KeysOf(values[..|values| - 1]) + if last.Some? then [last.value.key] else []
  }

  function LengthsOf<K>(values: seq<Option<Value<K>>>): seq<nat> {
    if values == [] then []
    else
      var last := values[|values| - 1];
      LengthsOf(values[..|values| - 1]) + if last.Some? then last.value.lengths else []
  }

  function Unusable<K>(values: seq<Option<Value<K>>>): nat {
    if values == [] then 0
    else Unusable(values[..|values| - 1]) + if values[|values| - 1].None? then 1 else 0
  }

  predicate NoneOver(lengths: seq<nat>, limit: nat) {
    forall i :: 0 <= i < |lengths| ==> lengths[i] <= limit
  }

  lemma NoneOverAppends(a: seq<nat>, b: seq<nat>, limit: nat)
    ensures NoneOver(a + b, limit) <==> NoneOver(a, limit) && NoneOver(b, limit)
  {
    assert forall i :: 0 <= i < |a| ==> (a + b)[i] == a[i];
    assert forall i :: 0 <= i < |b| ==> (a + b)[|a| + i] == b[i];
  }

  /** The matches fit the budget on top of what is counted already. */
  predicate Fits<K>(b: Budget, matches: nat, bytes: nat, held: map<K, nat>, values: seq<Option<Value<K>>>) {
    && matches + |values| <= b.maxMatches
    && NoneOver(LengthsOf(values), b.maxCaptureLen)
    && bytes + Sum(LengthsOf(values)) <= b.maxBytes
    && |Counted(held, KeysOf(values))| <= b.maxEntries
  }

  lemma {:induction false} SumAppends(a: seq<nat>, b: seq<nat>)
    ensures Sum(a + b) == Sum(a) + Sum(b)
  {
    if b == [] {
      assert a + b == a;
    } else {
      var n := |b| - 1;
      assert (a + b)[..|a + b| - 1] == a + b[..n];
      SumAppends(a, b[..n]);
    }
  }

  /** What fits, fits up to any match. */
  lemma {:induction false} PrefixFits<K>(b: Budget, matches: nat, bytes: nat, held: map<K, nat>,
                                         values: seq<Option<Value<K>>>, n: nat)
    requires n <= |values| && Fits(b, matches, bytes, held, values)
    ensures Fits(b, matches, bytes, held, values[..n])
    decreases |values|
  {
    if n == |values| {
      assert values[..n] == values;
    } else {
      var m: nat := |values| - 1;
      var init := values[..m];
      assert init[..n] == values[..n];
      LastFits(b, matches, bytes, held, init, values[m]);
      assert values == init + [values[m]];
      PrefixFits(b, matches, bytes, held, init, n);
    }
  }

  /** One match fits on top of what is counted already. */
  predicate FitsOne<K>(b: Budget, matches: nat, bytes: nat, held: map<K, nat>, v: Option<Value<K>>) {
    && matches + 1 <= b.maxMatches
    && (v.Some? ==>
      && NoneOver(v.value.lengths, b.maxCaptureLen) && bytes + Sum(v.value.lengths) <= b.maxBytes
      && (v.value.key in held || |held| < b.maxEntries))
  }

  /** Fitting one match more, against the state before it. */
  lemma LastFits<K>(b: Budget, matches: nat, bytes: nat, held: map<K, nat>, values: seq<Option<Value<K>>>, last: Option<Value<K>>)
    ensures Fits(b, matches, bytes, held, values + [last]) <==>
            && Fits(b, matches, bytes, held, values)
            && FitsOne(b, matches + |values|, bytes + Sum(LengthsOf(values)), Counted(held, KeysOf(values)), last)
  {
    OneMoreValue(held, values, last);
    if last.Some? {
      SumAppends(LengthsOf(values), last.value.lengths);
      NoneOverAppends(LengthsOf(values), last.value.lengths, b.maxCaptureLen);
      OneMoreKey(Counted(held, KeysOf(values)), last.value.key);
    }
  }

  /** What one match more adds. */
  lemma OneMoreValue<K>(held: map<K, nat>, values: seq<Option<Value<K>>>, last: Option<Value<K>>)
    ensures last.None? ==>
              && KeysOf(values + [last]) == KeysOf(values) && LengthsOf(values + [last]) == LengthsOf(values)
              && Unusable(values + [last]) == Unusable(values) + 1
    ensures last.Some? ==>
              var before, key := Counted(held, KeysOf(values)), last.value.key;
              && LengthsOf(values + [last]) == LengthsOf(values) + last.value.lengths
              && Counted(held, KeysOf(values + [last])) == before[key := HeldFor(before, key) + 1]
              && Unusable(values + [last]) == Unusable(values)
  {
    assert (values + [last])[..|values|] == values;
    if last.Some? {
      var keys := KeysOf(values);
      assert (keys + [last.value.key])[..|keys|] == keys;
    }
  }

  /** Counting chunk by chunk is counting all at once. */
  lemma {:induction false} CountedInSteps<K>(held: map<K, nat>, first: seq<K>, later: seq<K>)
    ensures Counted(Counted(held, first), later) == Counted(held, first + later)
  {
    if later == [] {
      assert first + later == first;
    } else {
      var n := |later| - 1;
      assert (first + later)[..|first + later| - 1] == first + later[..n];
      CountedInSteps(held, first, later[..n]);
    }
  }

  /** Each match is counted under its key or as unusable. */
  lemma {:induction false} EveryMatchCounts<K>(values: seq<Option<Value<K>>>)
    ensures |values| == |KeysOf(values)| + Unusable(values)
  {
    if values != [] {
      EveryMatchCounts(values[..|values| - 1]);
    }
  }

  // ----- the accumulator -----

  function Credentials(t: Texts, caps: seq<(Group, Group)>): (r: seq<Option<Value<(string, string)>>>)
    ensures |r| == |caps| && forall i :: 0 <= i < |caps| ==> r[i] == Credential(t, caps[i])
  {
    seq(|caps|, i requires 0 <= i < |caps| => Credential(t, caps[i]))
  }

  function Singles(t: Texts, caps: seq<Group>): (r: seq<Option<Value<string>>>)
    ensures |r| == |caps| && forall i :: 0 <= i < |caps| ==> r[i] == Single(t, caps[i])
  {
    seq(|caps|, i requires 0 <= i < |caps| => Single(t, caps[i]))
  }

  /** The fields of the accumulator as a value. */
  datatype Tally = Tally(creds: map<(string, string), nat>, builds: map<string, nat>, cts: map<string, nat>,
                         withoutGroups: nat, matches: nat, bytes: nat)

  predicate Within(b: Budget, s: Tally) {
    && s.matches <= b.maxMatches && s.bytes <= b.maxBytes
    && |s.creds| <= b.maxEntries && |s.builds| <= b.maxEntries && |s.cts| <= b.maxEntries
  }

  function AfterCreds(s: Tally, values: seq<Option<Value<(string, string)>>>): Tally {
    s.(creds := Counted(s.creds, KeysOf(values)), withoutGroups := s.withoutGroups + Unusable(values),
       matches := s.matches + |values|, bytes := s.bytes + Sum(LengthsOf(values)))
  }

  function Charged(s: Tally, values: seq<Option<Value<string>>>): Tally {
    s.(matches := s.matches + |values|, bytes := s.bytes + Sum(LengthsOf(values)))
  }

  function AfterBuilds(s: Tally, values: seq<Option<Value<string>>>): Tally {
    Charged(s, values).(builds := Counted(s.builds, KeysOf(values)))
  }

  function AfterCts(s: Tally, values: seq<Option<Value<string>>>): Tally {
    Charged(s, values).(cts := Counted(s.cts, KeysOf(values)))
  }

  /** The matches of one haystack. */
  datatype Found = Found(creds: seq<(Group, Group)>, builds: seq<Group>, cts: seq<Group>)

  function AfterAll(t: Texts, s: Tally, f: Found): Tally {
    AfterCts(AfterBuilds(AfterCreds(s, Credentials(t, f.creds)), Singles(t, f.builds)), Singles(t, f.cts))
  }

  /** All matches of a haystack fit the budget. */
  predicate AllFit(t: Texts, b: Budget, s: Tally, f: Found) {
    var s1 := AfterCreds(s, Credentials(t, f.creds));
    var s2 := AfterBuilds(s1, Singles(t, f.builds));
    && Fits(b, s.matches, s.bytes, s.creds, Credentials(t, f.creds))
    && Fits(b, s1.matches, s1.bytes, s1.builds, Singles(t, f.builds))
    && Fits(b, s2.matches, s2.bytes, s2.cts, Singles(t, f.cts))
  }

  /** One match more in a loop: one that is refused shows that the whole does not fit. */
  lemma NextMatch<K>(b: Budget, matches: nat, bytes: nat, held: map<K, nat>, values: seq<Option<Value<K>>>, i: nat)
    requires i < |values| && Fits(b, matches, bytes, held, values[..i])
    ensures var before := Counted(held, KeysOf(values[..i]));
            if FitsOne(b, matches + i, bytes + Sum(LengthsOf(values[..i])), before, values[i])
            then Fits(b, matches, bytes, held, values[..i + 1]) else !Fits(b, matches, bytes, held, values)
  {
    assert values[..i + 1] == values[..i] + [values[i]];
    LastFits(b, matches, bytes, held, values[..i], values[i]);
    if Fits(b, matches, bytes, held, values) {
      PrefixFits(b, matches, bytes, held, values, i + 1);
    }
  }

  function Increased<K>(held: map<K, nat>, v: Option<Value<K>>): map<K, nat> {
    if v.Some? then held[v.value.key := HeldFor(held, v.value.key) + 1] else held
  }

  function BytesOf<K>(v: Option<Value<K>>): nat {
    if v.Some? then Sum(v.value.lengths) else 0
  }

  /** The accumulator after one credential match. */
  function AfterCred(s: Tally, v: Option<Value<(string, string)>>): Tally {
    s.(creds := Increased(s.creds, v), withoutGroups := s.withoutGroups + if v.None? then 1 else 0,
       matches := s.matches + 1, bytes := s.bytes + BytesOf(v))
  }

  lemma CredStep(s: Tally, values: seq<Option<Value<(string, string)>>>, last: Option<Value<(string, string)>>)
    ensures AfterCreds(s, values + [last]) == AfterCred(AfterCreds(s, values), last)
  {
    OneMoreValue(s.creds, values, last);
    if last.Some? {
      SumAppends(LengthsOf(values), last.value.lengths);
    }
  }

  function AfterSingle(s: Tally, v: Option<Value<string>>): Tally {
    s.(matches := s.matches + 1, bytes := s.bytes + BytesOf(v))
  }

  lemma SingleStep(s: Tally, held: map<string, nat>, values: seq<Option<Value<string>>>, last: Option<Value<string>>)
    ensures Charged(s, values + [last]) == AfterSingle(Charged(s, values), last)
    ensures Counted(held, KeysOf(values + [last])) == Increased(Counted(held, KeysOf(values)), last)
  {
    OneMoreValue(held, values, last);
    if last.Some? {
      SumAppends(LengthsOf(values), last.value.lengths);
    }
  }

  class PatternCounts {
    var creds: map<(string, string), nat>
    var builds: map<string, nat>
    var cts: map<string, nat>
    var withoutGroups: nat
    var matches: nat
    var bytes: nat

    function State(): Tally
      reads this
    {
      Tally(creds, builds, cts, withoutGroups, matches, bytes)
    }

    constructor ()
      ensures State() == Tally(map[], map[], map[], 0, 0, 0)
    {
      creds, builds, cts := map[], map[], map[];
      withoutGroups, matches, bytes := 0, 0, 0;
    }

    /** The clock may run out at any check. */
    method ChargeTime() returns (over: Option<Exceeded>)
      ensures over == None || over == Some(Elapsed)
    {
      if * {
        return Some(Elapsed);
      }
      return None;
    }

    method ChargeMatch(b: Budget) returns (over: Option<Exceeded>)
      modifies this`matches
      ensures matches == old(matches) + 1
      ensures over == Some(Matches) <==> matches > b.maxMatches
      ensures over == None || over == Some(Matches) || over == Some(Elapsed)
    {
      matches := matches + 1;
      if matches > b.maxMatches {
        return Some(Matches);
      }
      over := ChargeTime();
    }

    method ChargeValue(len: nat, b: Budget) returns (over: Option<Exceeded>)
      modifies this`bytes
      ensures over == Some(CaptureBytes) <==> len > b.maxCaptureLen
      ensures over == Some(RetainedBytes) <==> len <= b.maxCaptureLen && old(bytes) + len > b.maxBytes
      ensures over.None? ==> bytes == old(bytes) + len
      ensures over == None || over == Some(CaptureBytes) || over == Some(RetainedBytes)
    {
      if len > b.maxCaptureLen {
        return Some(CaptureBytes);
      }
      bytes := bytes + len;
      if bytes > b.maxBytes {
        return Some(RetainedBytes);
      }
      return None;
    }

    method ChargeEntry(held: nat, b: Budget) returns (over: Option<Exceeded>)
      ensures over == if held >= b.maxEntries then Some(Entries) else None
    {
      return if held >= b.maxEntries then Some(Entries) else None;
    }

    /** One credential match. */
    method ExamineCredential(t: Texts, cap: (Group, Group), b: Budget) returns (over: Option<Exceeded>)
      modifies this
      ensures over.None? ==>
                && State() == AfterCred(old(State()), Credential(t, cap))
                && FitsOne(b, old(matches), old(bytes), old(creds), Credential(t, cap))
      ensures over.Some? && over != Some(Elapsed) ==> !FitsOne(b, old(matches), old(bytes), old(creds), Credential(t, cap))
    {
      over := ChargeMatch(b);
      if over.Some? {
        return;
      }
      if cap.0.None? || cap.1.None? {
        withoutGroups := withoutGroups + 1;
        return;
      }
      var aid, nonce := cap.0.value, cap.1.value;
      TwoLengths(|aid|, |nonce|);
      over := ChargeValue(|aid|, b);
      if over.Some? {
        return;
      }
      over := ChargeValue(|nonce|, b);
      if over.Some? {
        return;
      }
      var key := (t.lower(t.decode(aid)), t.decode(nonce));
      if key !in creds {
        over := ChargeEntry(|creds|, b);
        if over.Some? {
          return;
        }
      }
      creds := creds[key := HeldFor(creds, key) + 1];
    }

    /** The loop over the credential matches. */
    method AggregateCreds(t: Texts, caps: seq<(Group, Group)>, b: Budget) returns (over: Option<Exceeded>)
      requires Within(b, State())
      modifies this
      ensures over.None? ==>
                && State() == AfterCreds(old(State()), Credentials(t, caps)) && Within(b, State())
                && Fits(b, old(matches), old(bytes), old(creds), Credentials(t, caps))
      ensures over.Some? && over != Some(Elapsed) ==> !Fits(b, old(matches), old(bytes), old(creds), Credentials(t, caps))
    {
      ghost var values, start := Credentials(t, caps), State();
      for i := 0 to |caps|
        invariant State() == AfterCreds(start, values[..i])
        invariant Fits(b, start.matches, start.bytes, start.creds, values[..i])
      {
        OneMore(values, i);
        CredStep(start, values[..i], values[i]);
        NextMatch(b, start.matches, start.bytes, start.creds, values, i);
        over := ExamineCredential(t, caps[i], b);
        if over.Some? {
          return;
        }
      }
      assert values[..|caps|] == values;
      return None;
    }

    /** One match of a single group, counted in `start`. */
    method ExamineSingle(t: Texts, cap: Group, start: map<string, nat>, b: Budget)
      returns (over: Option<Exceeded>, held: map<string, nat>)
      modifies this`matches, this`bytes
      ensures over.None? ==>
                && State() == AfterSingle(old(State()), Single(t, cap))
                && held == Increased(start, Single(t, cap)) && FitsOne(b, old(matches), old(bytes), start, Single(t, cap))
      ensures over.Some? && over != Some(Elapsed) ==> !FitsOne(b, old(matches), old(bytes), start, Single(t, cap))
    {
      held := start;
      over := ChargeMatch(b);
      if over.Some? || cap.None? {
        return;
      }
      OneLength(|cap.value|);
      over := ChargeValue(|cap.value|, b);
      if over.Some? {
        return;
      }
      var value := t.decode(cap.value);
      if value !in held {
        over := ChargeEntry(|held|, b);
        if over.Some? {
          return;
        }
      }
      held := held[value := HeldFor(held, value) + 1];
    }

    /** The loop over matches of one group. */
    method AggregateSingles(t: Texts, caps: seq<Group>, start: map<string, nat>, b: Budget)
      returns (over: Option<Exceeded>, held: map<string, nat>)
      requires Within(b, State()) && |start| <= b.maxEntries
      modifies this`matches, this`bytes
      ensures over.None? ==>
                && State() == Charged(old(State()), Singles(t, caps)) && held == Counted(start, KeysOf(Singles(t, caps)))
                && Fits(b, old(matches), old(bytes), start, Singles(t, caps))
      ensures over.Some? && over != Some(Elapsed) ==> !Fits(b, old(matches), old(bytes), start, Singles(t, caps))
    {
      ghost var values, before := Singles(t, caps), State();
      held := start;
      for i := 0 to |caps|
        invariant State() == Charged(before, values[..i]) && held == Counted(start, KeysOf(values[..i]))
        invariant Fits(b, before.matches, before.bytes, start, values[..i])
      {
        OneMore(values, i);
        SingleStep(before, start, values[..i], values[i]);
        NextMatch(b, before.matches, before.bytes, start, values, i);
        over, held := ExamineSingle(t, caps[i], held, b);
        if over.Some? {
          return;
        }
      }
      assert values[..|caps|] == values;
      over := None;
    }

    /**
     * `aggregate_match`: unless the clock runs out, the haystack is counted in full exactly when all of it
     * fits the budget.
     */
    method AggregateMatch(t: Texts, f: Found, b: Budget) returns (over: Option<Exceeded>)
      requires Within(b, State())
      modifies this
      ensures over.None? ==> AllFit(t, b, old(State()), f) && State() == AfterAll(t, old(State()), f) && Within(b, State())
      ensures over.Some? && over != Some(Elapsed) ==> !AllFit(t, b, old(State()), f)
    {
      over := ChargeTime();
      if over.Some? {
        return;
      }
      over := AggregateCreds(t, f.creds, b);
      if over.Some? {
        return;
      }
      over := ChargeTime();
      if over.Some? {
        return;
      }
      var counted;
      over, counted := AggregateSingles(t, f.builds, builds, b);
      if over.Some? {
        return;
      }
      builds := counted;
      over := ChargeTime();
      if over.Some? {
        return;
      }
      over, counted := AggregateSingles(t, f.cts, cts, b);
      if over.Some? {
        return;
      }
      cts := counted;
    }
  }

  lemma OneLength(a: nat)
    ensures Sum([a]) == a
  {
    assert [a][..0] == [];
  }

  lemma TwoLengths(a: nat, c: nat)
    ensures Sum([a, c]) == a + c
    ensures forall limit :: NoneOver([a, c], limit) <==> a <= limit && c <= limit
  {
    var both := [a, c];
    assert both[..1] == [a] && both[0] == a && both[1] == c;
    OneLength(a);
  }

  // ----- over a whole scan -----

  /** The accumulator after the haystacks of a scan, or none if one of them does not fit what is left of the budget. */
  function CountScan(t: Texts, b: Budget, haystacks: seq<Found>): Option<Tally> {
    if haystacks == [] then Some(Tally(map[], map[], map[], 0, 0, 0))
    else
      var before := CountScan(t, b, haystacks[..|haystacks| - 1]);
      if before.None? then None else CountOne(t, b, before.value, haystacks[|haystacks| - 1])
  }

  function CountOne(t: Texts, b: Budget, s: Tally, f: Found): Option<Tally> {
    if AllFit(t, b, s, f) then Some(AfterAll(t, s, f)) else None
  }

  lemma CountOneMore(t: Texts, b: Budget, haystacks: seq<Found>, s: Tally, f: Found)
    requires CountScan(t, b, haystacks) == Some(s)
    ensures CountScan(t, b, haystacks + [f]) == CountOne(t, b, s, f)
  {
    assert (haystacks + [f])[..|haystacks|] == haystacks;
  }

  lemma OneStaysWithin(t: Texts, b: Budget, s: Tally, f: Found)
    requires AllFit(t, b, s, f)
    ensures Within(b, AfterAll(t, s, f))
  {
  }

  lemma {:induction false} ScanStaysWithin(t: Texts, b: Budget, haystacks: seq<Found>)
    ensures CountScan(t, b, haystacks).Some? ==> Within(b, CountScan(t, b, haystacks).value)
  {
    if haystacks != [] {
      var before := CountScan(t, b, haystacks[..|haystacks| - 1]);
      if before.Some? && AllFit(t, b, before.value, haystacks[|haystacks| - 1]) {
        OneStaysWithin(t, b, before.value, haystacks[|haystacks| - 1]);
      }
    }
  }

  /** What does not fit does not fit with more behind it. */
  lemma {:induction false} NoneStaysNone(t: Texts, b: Budget, first: seq<Found>, later: seq<Found>)
    requires CountScan(t, b, first).None?
    ensures CountScan(t, b, first + later).None?
  {
    if later == [] {
      assert first + later == first;
    } else {
      var n := |later| - 1;
      assert (first + later)[..|first + later| - 1] == first + later[..n];
      NoneStaysNone(t, b, first, later[..n]);
    }
  }
}
