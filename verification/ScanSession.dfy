/** The scan as `scan_session` runs it: each chunk is read behind the carried tail and counted at once. */
module ScanSession {
  import opened Outcome
  import opened Numbers
  import opened ScanPatterns
  import opened ChunkScan
  import opened PatternBudget

  /** What a region holds and how its reads turn out. */
  datatype Region = Region(bytes: seq<Byte>, answer: nat -> Option<nat>)

  /** What the patterns find in each haystack. */
  function FoundIn(find: seq<Byte> -> Found, haystacks: seq<seq<Byte>>): (r: seq<Found>)
    ensures |r| == |haystacks| && forall i :: 0 <= i < |r| ==> r[i] == find(haystacks[i])
  {
    seq(|haystacks|, i requires 0 <= i < |haystacks| => find(haystacks[i]))
  }

  lemma FoundInOneMore(find: seq<Byte> -> Found, before: seq<Found>, haystacks: seq<seq<Byte>>, shown: seq<Byte>)
    ensures before + FoundIn(find, haystacks + [shown]) == (before + FoundIn(find, haystacks)) + [find(shown)]
  {
    assert FoundIn(find, haystacks + [shown]) == FoundIn(find, haystacks) + [find(shown)];
  }

  /** One haystack more behind `all`. */
  method CountHaystack(t: Texts, f: Found, b: Budget, counts: PatternCounts, ghost all: seq<Found>)
    returns (over: Option<Exceeded>)
    requires CountScan(t, b, all) == Some(counts.State())
    modifies counts
    ensures over.None? ==> CountScan(t, b, all + [f]) == Some(counts.State())
    ensures over.Some? && over != Some(Elapsed) ==> CountScan(t, b, all + [f]) == None
  {
    ScanStaysWithin(t, b, all);
    CountOneMore(t, b, all, counts.State(), f);
    over := counts.AggregateMatch(t, f, b);
  }

  /** The bytes that read `k` of a region brings at `offset`; none at the end of the file or if it fails. */
  function ReadSize(region: Region, chunk: nat, offset: nat, k: nat): nat
    requires chunk > 0 && offset < |region.bytes|
  {
    var answer := region.answer(k);
    if answer.None? then 0 else Min(answer.value, Min(chunk, |region.bytes| - offset))
  }

  /** What is recorded of the reads of a region. */
  datatype Trace = Trace(haystacks: seq<seq<Byte>>, sizes: seq<nat>)

  /** The trace is one of the region's reads. */
  predicate Reading(region: Region, chunk: nat, overlap: nat, trace: Trace) {
    Recorded(region.bytes, chunk, overlap, region.answer, trace.haystacks, trace.sizes)
  }

  /** The reads of a region up to its end, or to a read that fails or gives nothing. */
  predicate Scanned(region: Region, chunk: nat, overlap: nat, trace: Trace) {
    var k := |trace.sizes|;
    && Reading(region, chunk, overlap, trace)
    && (Offset(trace.sizes, k) == |region.bytes| || region.answer(k).None? || region.answer(k).value == 0)
  }

  /** Where the loop over a region stands; `all` is what was found, here and in earlier regions. */
  predicate InRegion(region: Region, chunk: nat, overlap: nat, find: seq<Byte> -> Found, before: seq<Found>,
                     trace: Trace, offset: nat, front: seq<Byte>, all: seq<Found>)
  {
    && Standing(region.bytes, chunk, overlap, region.answer, trace.haystacks, trace.sizes, offset, front)
    && all == before + FoundIn(find, trace.haystacks)
  }

  lemma AtRegionEnd(region: Region, chunk: nat, overlap: nat, find: seq<Byte> -> Found, before: seq<Found>,
                    trace: Trace, offset: nat, front: seq<Byte>, all: seq<Found>)
    requires chunk > 0 && InRegion(region, chunk, overlap, find, before, trace, offset, front, all)
    requires offset < |region.bytes| ==> ReadSize(region, chunk, offset, |trace.sizes|) == 0
    ensures Scanned(region, chunk, overlap, trace)
  {
  }

  /** One chunk: `n` bytes are read at `offset` and what is shown is counted. */
  method ScanChunk(hay: array<Byte>, region: Region, chunk: nat, overlap: nat, find: seq<Byte> -> Found,
                   t: Texts, b: Budget, counts: PatternCounts, ghost before: seq<Found>, ghost trace: Trace,
                   offset: nat, tailLen: nat, n: nat, ghost front: seq<Byte>, ghost all: seq<Found>)
    returns (over: Option<Exceeded>, to: nat, keep: nat, ghost kept: seq<Byte>, ghost next: Trace, ghost now: seq<Found>)
    requires hay.Length == overlap + chunk && chunk > 0 && tailLen <= overlap && offset < |region.bytes|
    requires front == hay[..tailLen] && InRegion(region, chunk, overlap, find, before, trace, offset, front, all)
    requires CountScan(t, b, all) == Some(counts.State())
    requires 0 < n == ReadSize(region, chunk, offset, |trace.sizes|)
    modifies hay, counts
    ensures to == offset + n && keep <= overlap && kept == hay[..keep] && |next.sizes| == |trace.sizes| + 1
    ensures InRegion(region, chunk, overlap, find, before, next, to, kept, now)
    ensures over.None? ==> CountScan(t, b, now) == Some(counts.State())
    ensures over.Some? && over != Some(Elapsed) ==> CountScan(t, b, now) == None
  {
    var shown;
    shown, to, keep, kept := NextChunk(hay, region.bytes, chunk, overlap, region.answer, trace.haystacks, trace.sizes,
                                       offset, tailLen, n, front);
    next := Trace(trace.haystacks + [shown], trace.sizes + [n]);
    FoundInOneMore(find, before, trace.haystacks, shown);
    now := all + [find(shown)];
    over := CountHaystack(t, find(shown), b, counts, all);
  }

  /** The loop over one region. */
  method ScanRegion(hay: array<Byte>, region: Region, chunk: nat, overlap: nat, find: seq<Byte> -> Found,
                    t: Texts, b: Budget, counts: PatternCounts, ghost before: seq<Found>)
    returns (over: Option<Exceeded>, ghost trace: Trace, ghost all: seq<Found>)
    requires chunk > 0 && hay.Length == overlap + chunk
    requires CountScan(t, b, before) == Some(counts.State())
    modifies hay, counts
    ensures Reading(region, chunk, overlap, trace) && all == before + FoundIn(find, trace.haystacks)
    ensures over.None? ==>
              && Scanned(region, chunk, overlap, trace)
              && CountScan(t, b, all) == Some(counts.State())
    ensures over.Some? && over != Some(Elapsed) ==> CountScan(t, b, all) == None
  {
    over, trace, all := None, Trace([], []), before;
    var offset: nat, tailLen: nat, done: nat := 0, 0, 0;
    assert before + FoundIn(find, []) == before;
    ghost var front := hay[..tailLen];
    while offset < |region.bytes|
      invariant over == None && tailLen <= overlap && done == |trace.sizes| && front == hay[..tailLen]
      invariant InRegion(region, chunk, overlap, find, before, trace, offset, front, all)
      invariant CountScan(t, b, all) == Some(counts.State())
      decreases |region.bytes| - offset
    {
      var n := ReadSize(region, chunk, offset, done);
      if n == 0 {
        break;
      }
      done := done + 1;
      over, offset, tailLen, front, trace, all := ScanChunk(hay, region, chunk, overlap, find, t, b, counts, before, trace,
                                                            offset, tailLen, n, front, all);
      if over.Some? {
        return;
      }
    }
    AtRegionEnd(region, chunk, overlap, find, before, trace, offset, front, all);
  }

  /** What the patterns find in the regions, one after the other. */
  function AllFound(find: seq<Byte> -> Found, traces: seq<Trace>): seq<Found> {
    if traces == [] then []
    else AllFound(find, traces[..|traces| - 1]) + FoundIn(find, traces[|traces| - 1].haystacks)
  }

  lemma OneMoreRegion(find: seq<Byte> -> Found, traces: seq<Trace>, last: Trace)
    ensures AllFound(find, traces + [last]) == AllFound(find, traces) + FoundIn(find, last.haystacks)
  {
    assert (traces + [last])[..|traces|] == traces;
  }

  predicate AllRead(regions: seq<Region>, chunk: nat, overlap: nat, traces: seq<Trace>) {
    |traces| <= |regions| && forall i :: 0 <= i < |traces| ==> Reading(regions[i], chunk, overlap, traces[i])
  }

  predicate AllScanned(regions: seq<Region>, chunk: nat, overlap: nat, traces: seq<Trace>) {
    |traces| <= |regions| && forall i :: 0 <= i < |traces| ==> Scanned(regions[i], chunk, overlap, traces[i])
  }

  lemma AllReadOneMore(regions: seq<Region>, chunk: nat, overlap: nat, traces: seq<Trace>, last: Trace, more: seq<Trace>)
    requires AllScanned(regions, chunk, overlap, traces) && |traces| < |regions| && more == traces + [last]
    requires Reading(regions[|traces|], chunk, overlap, last)
    ensures AllRead(regions, chunk, overlap, more)
    ensures Scanned(regions[|traces|], chunk, overlap, last) ==> AllScanned(regions, chunk, overlap, more)
  {
  }

  /**
   * `scan_session`: unless the clock runs out, the haystacks of every region are counted, in order, exactly as
   * the fold over all of them counts; if the scan stops, what was handed over does not fit the budget.
   */
  method Scan(hay: array<Byte>, regions: seq<Region>, chunk: nat, overlap: nat, find: seq<Byte> -> Found,
              t: Texts, b: Budget)
    returns (over: Option<Exceeded>, counts: PatternCounts, ghost traces: seq<Trace>)
    requires chunk > 0 && hay.Length == overlap + chunk
    modifies hay
    ensures AllRead(regions, chunk, overlap, traces)
    ensures over.None? ==> |traces| == |regions| && AllScanned(regions, chunk, overlap, traces)
    ensures over.None? ==> CountScan(t, b, AllFound(find, traces)) == Some(counts.State())
    ensures over.Some? && over != Some(Elapsed) ==> CountScan(t, b, AllFound(find, traces)) == None
  {
    counts := new PatternCounts();
    over, traces := None, [];
    ghost var all := [];
    for i := 0 to |regions|
      invariant over == None && fresh(counts) && |traces| == i && all == AllFound(find, traces)
      invariant AllScanned(regions, chunk, overlap, traces) && AllRead(regions, chunk, overlap, traces)
      invariant CountScan(t, b, all) == Some(counts.State())
    {
      ghost var trace;
      over, trace, all := ScanRegion(hay, regions[i], chunk, overlap, find, t, b, counts, all);
      OneMoreRegion(find, traces, trace);
      ghost var more := traces + [trace];
      AllReadOneMore(regions, chunk, overlap, traces, trace, more);
      traces := more;
      if over.Some? {
        return;
      }
    }
  }
}
