/** Removing session credentials from messages (`error.rs`): four passes over the text. */
module Redact {
  import opened Outcome

  function Redacted(): string { "<redacted>" }

  predicate IsValueEnd(c: char) {
    c in {'&', ' ', '\t', '\n', '\r', ')', '"', '\''}
  }

  /** Where a value stops: a query string parameter, or a quoted JSON string. */
  datatype Ends = QueryEnd | QuoteEnd

  predicate IsEnd(ends: Ends, c: char) {
    if ends.QueryEnd? then IsValueEnd(c) else c == '"'
  }

  predicate OccursAt(text: string, word: string, at: nat) {
    at + |word| <= |text| && text[at..at + |word|] == word
  }

  /** `rest.find(marker)`. */
  function Find(text: string, word: string): (at: Option<nat>)
    ensures at.Some? ==> OccursAt(text, word, at.value) && forall i: nat :: i < at.value ==> !OccursAt(text, word, i)
    ensures at.None? ==> forall i: nat :: !OccursAt(text, word, i)
  {
    FindFrom(text, word, 0)
  }

  function FindFrom(text: string, word: string, from: nat): (at: Option<nat>)
    requires from <= |text|
    ensures at.Some? ==> from <= at.value && OccursAt(text, word, at.value)
    ensures at.Some? ==> forall i: nat :: from <= i < at.value ==> !OccursAt(text, word, i)
    ensures at.None? ==> forall i: nat :: from <= i ==> !OccursAt(text, word, i)
    decreases |text| - from
  {
    if OccursAt(text, word, from) then Some(from)
    else if from == |text| then None
    else FindFrom(text, word, from + 1)
  }

  /** The length of the value at the front of `tail`. */
  function ValueLength(tail: string, ends: Ends): (n: nat)
    ensures n <= |tail|
    ensures forall i :: 0 <= i < n ==> !IsEnd(ends, tail[i])
    ensures n == |tail| || IsEnd(ends, tail[n])
  {
    if tail == "" || IsEnd(ends, tail[0]) then 0 else 1 + ValueLength(tail[1..], ends)
  }

  /** What follows the value behind the marker found at `at`. */
  function AfterFirst(text: string, marker: string, ends: Ends, at: nat): (rest: string)
    requires at + |marker| <= |text|
    ensures |rest| <= |text| - |marker|
    ensures rest == text[|text| - |rest|..]
    ensures rest == "" || IsEnd(ends, rest[0])
  {
    var tail := text[at + |marker|..];
    tail[ValueLength(tail, ends)..]
  }

  /** `redact_after`, with `mask` as the placeholder. */
  function RedactAfter(text: string, marker: string, ends: Ends, mask: string): string
    requires marker != ""
    decreases |text|
  {
    match Find(text, marker)
    case None => text
    case Some(at) =>
      text[..at + |marker|] + (mask + RedactAfter(AfterFirst(text, marker, ends, at), marker, ends, mask))
  }

  function QueryMarker(name: string): string {
    name + "="
  }

  function JsonMarker(name: string): string {
    "\"" + name + "\":\""
  }

  function AccountId(): string { "accountId" }

  function Nonce(): string { "nonce" }

  /** `redact_session_creds`: both shapes of the first name, then both of the second. */
  function RedactSessionCreds(text: string): string {
    RedactNames(text, AccountId(), Nonce(), Redacted())
  }

  function RedactNames(text: string, first: string, second: string, mask: string): string {
    var t1 := RedactAfter(text, QueryMarker(first), QueryEnd, mask);
    var t2 := RedactAfter(t1, JsonMarker(first), QuoteEnd, mask);
    var t3 := RedactAfter(t2, QueryMarker(second), QueryEnd, mask);
    RedactAfter(t3, JsonMarker(second), QuoteEnd, mask)
  }

  /** `redact_after` as it runs, with `out` growing while `rest` is used up. */
  method RunRedactAfter(text: string, marker: string, ends: Ends, mask: string) returns (out: string)
    requires marker != ""
    ensures out == RedactAfter(text, marker, ends, mask)
  {
    out := "";
    var rest := text;
    var pos := Find(rest, marker);
    ghost var whole, more := RedactAfter(text, marker, ends, mask), RedactAfter(rest, marker, ends, mask);
    while pos.Some?
      invariant pos == Find(rest, marker)
      invariant more == RedactAfter(rest, marker, ends, mask)
      invariant whole == out + more
      decreases |rest|
    {
      var valueAt := pos.value + |marker|;
      var head, tail := rest[..valueAt], rest[valueAt..];
      var next := tail[ValueLength(tail, ends)..];
      ghost var later := PassStep(rest, marker, ends, mask, pos.value, head, next);
      Regroup(out, head, mask, later);
      more := later;
      out := out + head;
      out := out + mask;
      rest := next;
      pos := Find(rest, marker);
    }
    out := out + rest;
  }

  /** What a turn writes, and what it leaves for the next one. */
  lemma PassStep(rest: string, marker: string, ends: Ends, mask: string, at: nat, head: string, next: string)
    returns (later: string)
    requires marker != "" && Find(rest, marker) == Some(at)
    requires head == rest[..at + |marker|] && next == AfterFirst(rest, marker, ends, at)
    ensures later == RedactAfter(next, marker, ends, mask) && RedactAfter(rest, marker, ends, mask) == head + (mask + later)
    ensures |next| < |rest|
  {
    later := RedactAfter(next, marker, ends, mask);
  }

  lemma Regroup(a: string, b: string, c: string, d: string)
    ensures a + (b + (c + d)) == (a + b + c) + d
  {
  }

  method RunRedactSessionCreds(text: string) returns (out: string)
    ensures out == RedactSessionCreds(text)
  {
    out := text;
    out := RunRedactAfter(out, QueryMarker(AccountId()), QueryEnd, Redacted());
    out := RunRedactAfter(out, JsonMarker(AccountId()), QuoteEnd, Redacted());
    out := RunRedactAfter(out, QueryMarker(Nonce()), QueryEnd, Redacted());
    out := RunRedactAfter(out, JsonMarker(Nonce()), QuoteEnd, Redacted());
  }

  // ----- what is left of a credential -----

  /** The marker at `at` is followed by the placeholder, and that by an end of the value. */
  predicate Masked(text: string, marker: string, ends: Ends, mask: string, at: nat) {
    var after := at + |marker| + |mask|;
    OccursAt(text, mask, at + |marker|) && (after == |text| || (after < |text| && IsEnd(ends, text[after])))
  }

  /** No occurrence of the marker shows a value. */
  ghost predicate Clean(text: string, marker: string, ends: Ends, mask: string) {
    forall at: nat :: OccursAt(text, marker, at) ==> Masked(text, marker, ends, mask, at)
  }

  predicate IsSign(c: char) {
    c == '=' || c == '"'
  }

  predicate Proper(marker: string) {
    && (forall i :: 0 <= i < |marker| ==> marker[i] != '<' && marker[i] != '>')
    && exists i :: 0 <= i < |marker| && IsSign(marker[i])
  }

  predicate Placeholder(mask: string) {
    && mask != "" && mask[0] == '<' && mask[|mask| - 1] == '>'
    && forall i :: 0 <= i < |mask| ==> !IsSign(mask[i]) && !IsValueEnd(mask[i])
  }

  /** Occurrences of the two markers never end at the same place. */
  predicate EndApart(a: string, b: string) {
    exists i :: 0 < i <= |a| && i <= |b| && FromEnd(a, i) != FromEnd(b, i)
  }

  function FromEnd(s: string, i: nat): char
    requires 0 < i <= |s|
  {
    s[|s| - i]
  }

  lemma CharAt(text: string, word: string, at: nat, i: nat)
    requires OccursAt(text, word, at) && i < |word|
    ensures text[at + i] == word[i]
  {
    assert text[at..at + |word|][i] == word[i];
  }

  /** A proper marker never overlaps the placeholder. */
  lemma ClearOfPlaceholder(text: string, marker: string, at: nat, mask: string, spot: nat)
    requires Proper(marker) && Placeholder(mask) && OccursAt(text, marker, at) && OccursAt(text, mask, spot)
    ensures at + |marker| <= spot || spot + |mask| <= at
  {
    CharAt(text, mask, spot, 0);
    CharAt(text, mask, spot, |mask| - 1);
    if at + |marker| > spot && spot + |mask| > at {
      if at <= spot {
        CharAt(text, marker, at, spot - at);
      } else if at + |marker| >= spot + |mask| {
        CharAt(text, marker, at, spot + |mask| - 1 - at);
      } else {
        var i :| 0 <= i < |marker| && IsSign(marker[i]);
        CharAt(text, marker, at, i);
        CharAt(text, mask, spot, at + i - spot);
      }
    }
  }

  /** The first character stays: it is never inside a value. */
  lemma FirstStays(text: string, marker: string, ends: Ends, mask: string)
    requires marker != ""
    ensures text == "" ==> RedactAfter(text, marker, ends, mask) == ""
    ensures text != "" ==> RedactAfter(text, marker, ends, mask) != "" && RedactAfter(text, marker, ends, mask)[0] == text[0]
  {
  }

  lemma SliceOfPrefix(a: string, b: string, i: nat, j: nat)
    requires i <= j <= |a|
    ensures (a + b)[i..j] == a[i..j]
  {
  }

  lemma SliceOfSuffix(a: string, b: string, i: nat, j: nat)
    requires i <= j <= |b|
    ensures (a + b)[|a| + i..|a| + j] == b[i..j]
  {
  }

  /** What a suffix shows, the text shows at the shifted place. */
  lemma OccursInSuffix(head: string, tail: string, word: string, at: nat)
    ensures OccursAt(tail, word, at) <==> OccursAt(head + tail, word, |head| + at)
  {
    if at + |word| <= |tail| {
      SliceOfSuffix(head, tail, at, at + |word|);
    }
  }

  lemma OccursInPrefix(head: string, tail: string, word: string, at: nat)
    requires at + |word| <= |head|
    ensures OccursAt(head, word, at) <==> OccursAt(head + tail, word, at)
  {
    SliceOfPrefix(head, tail, at, at + |word|);
  }

  lemma MaskedInSuffix(head: string, tail: string, marker: string, ends: Ends, mask: string, at: nat)
    ensures Masked(tail, marker, ends, mask, at) <==> Masked(head + tail, marker, ends, mask, |head| + at)
  {
    OccursInSuffix(head, tail, mask, at + |marker|);
  }

  lemma CleanSuffix(head: string, tail: string, marker: string, ends: Ends, mask: string)
    requires Clean(head + tail, marker, ends, mask)
    ensures Clean(tail, marker, ends, mask)
  {
    forall at: nat | OccursAt(tail, marker, at)
      ensures Masked(tail, marker, ends, mask, at)
    {
      OccursInSuffix(head, tail, marker, at);
      MaskedInSuffix(head, tail, marker, ends, mask, at);
    }
  }

  lemma PlaceholderBetween(head: string, mask: string, tail: string)
    ensures OccursAt(head + (mask + tail), mask, |head|)
    ensures head + (mask + tail) == (head + mask) + tail
  {
    SliceOfSuffix(head, mask + tail, 0, |mask|);
    SliceOfPrefix(mask, tail, 0, |mask|);
  }

  /** An occurrence behind the placeholder is one in the rest, and as masked as there. */
  lemma OccursBehind(head: string, mask: string, tail: string, marker: string, ends: Ends, p: nat)
    requires p >= |head| + |mask| && OccursAt(head + (mask + tail), marker, p) && Clean(tail, marker, ends, mask)
    ensures Masked(head + (mask + tail), marker, ends, mask, p)
  {
    PlaceholderBetween(head, mask, tail);
    OccursInSuffix(head + mask, tail, marker, p - |head + mask|);
    MaskedInSuffix(head + mask, tail, marker, ends, mask, p - |head + mask|);
  }

  /** A step shows no value if what it keeps shows none and the rest shows none. */
  lemma StepClean(head: string, mask: string, tail: string, marker: string, ends: Ends)
    requires Proper(marker) && Placeholder(mask) && Clean(tail, marker, ends, mask)
    requires forall p: nat :: OccursAt(head, marker, p) ==> Masked(head + (mask + tail), marker, ends, mask, p)
    ensures Clean(head + (mask + tail), marker, ends, mask)
  {
    var out := head + (mask + tail);
    PlaceholderBetween(head, mask, tail);
    forall p: nat | OccursAt(out, marker, p)
      ensures Masked(out, marker, ends, mask, p)
    {
      ClearOfPlaceholder(out, marker, p, mask, |head|);
      if p + |marker| <= |head| {
        OccursInPrefix(head, mask + tail, marker, p);
      } else {
        OccursBehind(head, mask, tail, marker, ends, p);
      }
    }
  }

  /** The marker a pass stops at is the only one in what it keeps, and gets the placeholder. */
  lemma FirstIsMasked(text: string, marker: string, ends: Ends, mask: string, at: nat, tail: string, p: nat)
    requires Find(text, marker) == Some(at) && (tail == "" || IsEnd(ends, tail[0]))
    requires OccursAt(text[..at + |marker|], marker, p)
    ensures Masked(text[..at + |marker|] + (mask + tail), marker, ends, mask, p)
  {
    var head := text[..at + |marker|];
    OccursInPrefix(head, text[at + |marker|..], marker, p);
    assert text == head + text[at + |marker|..];
    assert p == at;
    SliceOfSuffix(head, mask + tail, 0, |mask|);
  }

  /** After its own pass, every occurrence of a marker is masked. */
  lemma {:induction false} PassCleans(text: string, marker: string, ends: Ends, mask: string)
    requires Proper(marker) && Placeholder(mask)
    ensures Clean(RedactAfter(text, marker, ends, mask), marker, ends, mask)
    decreases |text|
  {
    var found := Find(text, marker);
    if found.Some? {
      var at := found.value;
      var head, rest := text[..at + |marker|], AfterFirst(text, marker, ends, at);
      var tail := RedactAfter(rest, marker, ends, mask);
      PassCleans(rest, marker, ends, mask);
      FirstStays(rest, marker, ends, mask);
      forall p: nat | OccursAt(head, marker, p)
        ensures Masked(head + (mask + tail), marker, ends, mask, p)
      {
        FirstIsMasked(text, marker, ends, mask, at, tail, p);
      }
      StepClean(head, mask, tail, marker, ends);
    }
  }

  /** Two occurrences that end at the same place agree from the end. */
  lemma EndsDiffer(text: string, marker: string, at: nat, other: string, p: nat)
    requires EndApart(marker, other) && OccursAt(text, marker, at) && OccursAt(text, other, p)
    ensures p + |other| != at + |marker|
  {
    var i :| 0 < i <= |marker| && i <= |other| && FromEnd(marker, i) != FromEnd(other, i);
    CharAt(text, marker, at, |marker| - i);
    CharAt(text, other, p, |other| - i);
  }

  /** In the kept part of another pass, an occurrence and its mask stay together. */
  lemma MaskStays(text: string, marker: string, at: nat, other: string, otherEnds: Ends, mask: string, p: nat, tail: string)
    requires Proper(marker) && Proper(other) && Placeholder(mask) && EndApart(marker, other)
    requires OccursAt(text, marker, at) && OccursAt(text[..at + |marker|], other, p)
    requires Clean(text, other, otherEnds, mask)
    ensures Masked(text[..at + |marker|] + tail, other, otherEnds, mask, p)
  {
    var head, cut, spot := text[..at + |marker|], text[at + |marker|..], p + |other|;
    assert text == head + cut;
    OccursInPrefix(head, cut, other, p);
    EndsDiffer(text, marker, at, other, p);
    ClearOfPlaceholder(text, marker, at, mask, spot);
    OccursInPrefix(head, cut, mask, spot);
    OccursInPrefix(head, tail, mask, spot);
  }

  /** One step of a pass for one marker, seen from another. */
  lemma StepKeepsClean(text: string, marker: string, at: nat, other: string, otherEnds: Ends, mask: string, tail: string)
    requires Proper(marker) && Proper(other) && Placeholder(mask) && EndApart(marker, other)
    requires OccursAt(text, marker, at) && Clean(text, other, otherEnds, mask) && Clean(tail, other, otherEnds, mask)
    ensures Clean(text[..at + |marker|] + (mask + tail), other, otherEnds, mask)
  {
    var head := text[..at + |marker|];
    forall p: nat | OccursAt(head, other, p)
      ensures Masked(head + (mask + tail), other, otherEnds, mask, p)
    {
      MaskStays(text, marker, at, other, otherEnds, mask, p, mask + tail);
    }
    StepClean(head, mask, tail, other, otherEnds);
  }

  /** What is left after the first value shows nothing the text does not show. */
  lemma RestClean(text: string, marker: string, ends: Ends, at: nat, other: string, otherEnds: Ends, mask: string)
    requires at + |marker| <= |text| && Clean(text, other, otherEnds, mask)
    ensures Clean(AfterFirst(text, marker, ends, at), other, otherEnds, mask)
  {
    var rest := AfterFirst(text, marker, ends, at);
    assert text == text[..|text| - |rest|] + rest;
    CleanSuffix(text[..|text| - |rest|], rest, other, otherEnds, mask);
  }

  /** A pass for one marker does not uncover another. */
  lemma {:induction false} PassKeepsClean(text: string, marker: string, ends: Ends, other: string, otherEnds: Ends, mask: string)
    requires Proper(marker) && Proper(other) && Placeholder(mask) && EndApart(marker, other)
    requires Clean(text, other, otherEnds, mask)
    ensures Clean(RedactAfter(text, marker, ends, mask), other, otherEnds, mask)
    decreases |text|
  {
    var found := Find(text, marker);
    if found.Some? {
      var at := found.value;
      var rest := AfterFirst(text, marker, ends, at);
      RestClean(text, marker, ends, at, other, otherEnds, mask);
      PassKeepsClean(rest, marker, ends, other, otherEnds, mask);
      StepKeepsClean(text, marker, at, other, otherEnds, mask, RedactAfter(rest, marker, ends, mask));
    }
  }

  lemma {:induction false} ValueLengthIs(tail: string, ends: Ends, n: nat)
    requires n <= |tail| && forall i :: 0 <= i < n ==> !IsEnd(ends, tail[i])
    requires n == |tail| || IsEnd(ends, tail[n])
    ensures ValueLength(tail, ends) == n
  {
  }

  /** A value at the front is cut off exactly. */
  lemma ValueThenRest(value: string, rest: string, ends: Ends)
    requires forall i :: 0 <= i < |value| ==> !IsEnd(ends, value[i])
    requires rest == "" || IsEnd(ends, rest[0])
    ensures ValueLength(value + rest, ends) == |value| && (value + rest)[|value|..] == rest
  {
    ValueLengthIs(value + rest, ends, |value|);
  }

  /** Where every occurrence is masked already, a pass changes nothing. */
  lemma {:induction false} CleanStays(text: string, marker: string, ends: Ends, mask: string)
    requires marker != "" && Placeholder(mask) && Clean(text, marker, ends, mask)
    ensures RedactAfter(text, marker, ends, mask) == text
    decreases |text|
  {
    var found := Find(text, marker);
    if found.Some? {
      var at := found.value;
      var head, tail := text[..at + |marker|], text[at + |marker|..];
      assert text == head + tail;
      assert Masked(text, marker, ends, mask, at);
      var rest := tail[|mask|..];
      MaskedInFront(head, tail, mask);
      ValueThenRest(mask, rest, ends);
      CleanSuffix(head, tail, marker, ends, mask);
      CleanSuffix(mask, rest, marker, ends, mask);
      CleanStays(rest, marker, ends, mask);
    }
  }

  lemma MaskedInFront(head: string, tail: string, mask: string)
    requires OccursAt(head + tail, mask, |head|)
    ensures |mask| <= |tail| && tail == mask + tail[|mask|..]
  {
    SliceOfSuffix(head, tail, 0, |mask|);
  }

  // ----- the four passes -----

  lemma MarkerProper(name: string)
    requires forall i :: 0 <= i < |name| ==> name[i] != '<' && name[i] != '>'
    ensures Proper(QueryMarker(name)) && Proper(JsonMarker(name))
  {
    var query, json := QueryMarker(name), JsonMarker(name);
    assert IsSign(query[|name|]);
    assert IsSign(json[0]);
  }

  lemma QueryJsonApart(a: string, b: string)
    ensures EndApart(QueryMarker(a), JsonMarker(b)) && EndApart(JsonMarker(b), QueryMarker(a))
  {
    var query, json := QueryMarker(a), JsonMarker(b);
    assert FromEnd(query, 1) == '=' && FromEnd(json, 1) == '"';
  }

  /** Names that differ from the end. */
  lemma NamesApart(a: string, b: string, i: nat)
    requires 0 < i <= |a| && i <= |b| && FromEnd(a, i) != FromEnd(b, i)
    ensures EndApart(QueryMarker(a), QueryMarker(b)) && EndApart(JsonMarker(a), JsonMarker(b))
  {
    var p, q := QueryMarker(a), QueryMarker(b);
    assert FromEnd(p, i + 1) == FromEnd(a, i) && FromEnd(q, i + 1) == FromEnd(b, i);
    var x, y := JsonMarker(a), JsonMarker(b);
    assert FromEnd(x, i + 3) == FromEnd(a, i) && FromEnd(y, i + 3) == FromEnd(b, i);
  }

  /** Names without angle brackets that differ from the end, and a placeholder in brackets. */
  predicate Secrets(first: string, second: string, mask: string) {
    && (forall i :: 0 <= i < |first| ==> first[i] != '<' && first[i] != '>')
    && (forall i :: 0 <= i < |second| ==> second[i] != '<' && second[i] != '>')
    && EndApart(second, first)
    && Placeholder(mask)
  }

  /** No value of either name can be read off the text, in either shape. */
  ghost predicate NamesHidden(text: string, first: string, second: string, mask: string) {
    && Clean(text, QueryMarker(first), QueryEnd, mask) && Clean(text, JsonMarker(first), QuoteEnd, mask)
    && Clean(text, QueryMarker(second), QueryEnd, mask) && Clean(text, JsonMarker(second), QuoteEnd, mask)
  }

  ghost predicate NoCredentials(text: string) {
    NamesHidden(text, AccountId(), Nonce(), Redacted())
  }

  lemma NamesGetHidden(text: string, first: string, second: string, mask: string)
    requires Secrets(first, second, mask)
    ensures NamesHidden(RedactNames(text, first, second, mask), first, second, mask)
  {
    MarkerProper(first);
    MarkerProper(second);
    QueryJsonApart(first, first);
    QueryJsonApart(first, second);
    QueryJsonApart(second, first);
    QueryJsonApart(second, second);
    var i :| 0 < i <= |second| && i <= |first| && FromEnd(second, i) != FromEnd(first, i);
    NamesApart(second, first, i);
    var m1, m2, m3, m4 := QueryMarker(first), JsonMarker(first), QueryMarker(second), JsonMarker(second);
    var t1 := RedactAfter(text, m1, QueryEnd, mask);
    var t2 := RedactAfter(t1, m2, QuoteEnd, mask);
    var t3 := RedactAfter(t2, m3, QueryEnd, mask);
    PassCleans(text, m1, QueryEnd, mask);
    PassCleans(t1, m2, QuoteEnd, mask);
    PassKeepsClean(t1, m2, QuoteEnd, m1, QueryEnd, mask);
    PassCleans(t2, m3, QueryEnd, mask);
    PassKeepsClean(t2, m3, QueryEnd, m1, QueryEnd, mask);
    PassKeepsClean(t2, m3, QueryEnd, m2, QuoteEnd, mask);
    PassCleans(t3, m4, QuoteEnd, mask);
    PassKeepsClean(t3, m4, QuoteEnd, m1, QueryEnd, mask);
    PassKeepsClean(t3, m4, QuoteEnd, m2, QuoteEnd, mask);
    PassKeepsClean(t3, m4, QuoteEnd, m3, QueryEnd, mask);
  }

  lemma HiddenNamesStay(text: string, first: string, second: string, mask: string)
    requires Secrets(first, second, mask) && NamesHidden(text, first, second, mask)
    ensures RedactNames(text, first, second, mask) == text
  {
    CleanStays(text, QueryMarker(first), QueryEnd, mask);
    CleanStays(text, JsonMarker(first), QuoteEnd, mask);
    CleanStays(text, QueryMarker(second), QueryEnd, mask);
    CleanStays(text, JsonMarker(second), QuoteEnd, mask);
  }

  lemma TheSecrets()
    ensures Secrets(AccountId(), Nonce(), Redacted())
  {
    assert FromEnd(Nonce(), 1) == 'e' && FromEnd(AccountId(), 1) == 'd';
  }

  /** After the four passes every occurrence of every marker is masked. */
  lemma RedactionIsComplete(text: string)
    ensures NoCredentials(RedactSessionCreds(text))
  {
    TheSecrets();
    NamesGetHidden(text, AccountId(), Nonce(), Redacted());
  }

  /** Text without a readable credential, ordinary prose included, passes through unchanged - and only such text. */
  lemma UnchangedExactlyWhenClean(text: string)
    ensures RedactSessionCreds(text) == text <==> NoCredentials(text)
  {
    if NoCredentials(text) {
      TheSecrets();
      HiddenNamesStay(text, AccountId(), Nonce(), Redacted());
    } else {
      RedactionIsComplete(text);
    }
  }

  /** Redacting twice is redacting once. */
  lemma RedactionIsIdempotent(text: string)
    ensures RedactSessionCreds(RedactSessionCreds(text)) == RedactSessionCreds(text)
  {
    RedactionIsComplete(text);
    UnchangedExactlyWhenClean(RedactSessionCreds(text));
  }

  /** A prefix that ends in its only marker is where the whole text shows its first. */
  lemma FindInPrefix(prefix: string, rest: string, marker: string)
    requires marker != "" && |marker| <= |prefix| && OccursAt(prefix, marker, |prefix| - |marker|)
    requires forall i: nat :: i < |prefix| - |marker| ==> !OccursAt(prefix, marker, i)
    ensures Find(prefix + rest, marker) == Some(|prefix| - |marker|)
  {
    OccursInPrefix(prefix, rest, marker, |prefix| - |marker|);
    OccursInPrefix(prefix, rest, marker, Find(prefix + rest, marker).value);
  }

  /** A pass replaces exactly the value after the first marker, and goes on behind it. */
  lemma ReplacesTheValue(before: string, value: string, after: string, marker: string, ends: Ends, mask: string)
    requires marker != "" && forall i: nat :: i < |before| ==> !OccursAt(before + marker, marker, i)
    requires forall i :: 0 <= i < |value| ==> !IsEnd(ends, value[i])
    requires after == "" || IsEnd(ends, after[0])
    ensures RedactAfter((before + marker) + (value + after), marker, ends, mask)
         == (before + marker) + (mask + RedactAfter(after, marker, ends, mask))
  {
    var head, text := before + marker, (before + marker) + (value + after);
    assert head[|before|..|before| + |marker|] == marker;
    FindInPrefix(head, value + after, marker);
    ValueThenRest(value, after, ends);
    assert text[|head|..] == value + after;
    assert text[..|head|] == head;
  }

  /** What ends a value in a query string, and in quoted JSON. */
  lemma EndsMean(c: char)
    ensures IsEnd(QueryEnd, c) <==> c == '&' || c == ' ' || c == '\t' || c == '\n' || c == '\r' || c == ')' || c == '"' || c == '\''
    ensures IsEnd(QuoteEnd, c) <==> c == '"'
  {
  }

  /** At `p` stands `word`, and behind it the placeholder and then an end of the text or of the value. */
  ghost predicate Hides(text: string, word: string, query: bool, p: nat) {
    p + |word| <= |text| && text[p..p + |word|] == word ==>
      exists rest: string ::
        && text[p + |word|..] == "<redacted>" + rest
        && (rest == "" || rest[0] == '"' || (query && rest[0] in {'&', ' ', '\t', '\n', '\r', ')', '\''}))
  }

  lemma MaskedHides(text: string, marker: string, ends: Ends, p: nat)
    requires OccursAt(text, marker, p) ==> Masked(text, marker, ends, Redacted(), p)
    ensures Hides(text, marker, ends.QueryEnd?, p)
  {
    if OccursAt(text, marker, p) {
      var at := p + |marker|;
      var after := at + |Redacted()|;
      assert text[at..] == text[at..after] + text[after..];
      assert text[at..after] == "<redacted>";
      if after < |text| {
        EndsMean(text[after]);
      }
    }
  }

  /**
   * Whatever the text, behind it no value follows `accountId=`, `nonce=`, `"accountId":"` or `"nonce":"`: wherever one
   * of them stands, the placeholder follows, and then an end.
   */
  lemma NothingIsTold(text: string, p: nat)
    ensures var out := RedactSessionCreds(text);
            && Hides(out, "accountId=", true, p) && Hides(out, "\"accountId\":\"", false, p)
            && Hides(out, "nonce=", true, p) && Hides(out, "\"nonce\":\"", false, p)
  {
    var out := RedactSessionCreds(text);
    RedactionIsComplete(text);
    TheMarkers();
    MaskedHides(out, QueryMarker(AccountId()), QueryEnd, p);
    MaskedHides(out, JsonMarker(AccountId()), QuoteEnd, p);
    MaskedHides(out, QueryMarker(Nonce()), QueryEnd, p);
    MaskedHides(out, JsonMarker(Nonce()), QuoteEnd, p);
  }

  lemma TheMarkers()
    ensures QueryMarker(AccountId()) == "accountId=" && QueryMarker(Nonce()) == "nonce="
    ensures JsonMarker(AccountId()) == "\"accountId\":\"" && JsonMarker(Nonce()) == "\"nonce\":\""
  {
  }
}
