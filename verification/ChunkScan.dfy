/**
 * The chunked read of `scan_session`: one buffer is reused for every chunk of every region, and
 * the tail of a chunk is carried over so that a token across a chunk boundary is still seen.
 */
module ChunkScan {
  import opened Outcome
  import opened Numbers
  import opened ScanPatterns

  /** The values `scan_session` uses. */
  const CHUNK := 4 * 1024 * 1024
  const OVERLAP := 96

  datatype Span = Span(lo: nat, hi: nat)

  /** The offset reached by the first `k` reads. */
  function Offset(sizes: seq<nat>, k: nat): nat
    requires k <= |sizes|
  {
    if k == 0 then 0 else Offset(sizes, k - 1) + sizes[k - 1]
  }

  /** The bytes carried over in front of read `k`. */
  function Tail(sizes: seq<nat>, overlap: nat, k: nat): nat
    requires k <= |sizes|
  {
    if k == 0 then 0 else Min(overlap, sizes[k - 1])
  }

  lemma {:induction false} TailWithin(sizes: seq<nat>, overlap: nat, k: nat)
    requires k <= |sizes|
    ensures Tail(sizes, overlap, k) <= Offset(sizes, k)
  {
  }

  /** The part of the region that the matcher is shown after read `k`. */
  function Shown(sizes: seq<nat>, overlap: nat, k: nat): Span
    requires k < |sizes|
  {
    TailWithin(sizes, overlap, k);
    Span(Offset(sizes, k) - Tail(sizes, overlap, k), Offset(sizes, k + 1))
  }

  // ----- the loop -----

  lemma {:induction false} OffsetPrefix(sizes: seq<nat>, n: nat, k: nat)
    requires k <= |sizes|
    ensures Offset(sizes + [n], k) == Offset(sizes, k)
  {
    if k > 0 {
      OffsetPrefix(sizes, n, k - 1);
    }
  }

  /** Read `k` of a region gives `answer(k)` bytes, at most what is asked for, or fails. */
  predicate ReadRight(region: seq<Byte>, chunk: nat, answer: nat -> Option<nat>, sizes: seq<nat>, k: nat)
    requires k < |sizes|
  {
    && answer(k).Some?
    && Offset(sizes, k) <= |region|
    && 0 < sizes[k] == Min(answer(k).value, Min(chunk, |region| - Offset(sizes, k)))
  }

  /** What the matcher was handed after read `k` is the shown part of the region. */
  predicate ShownRight(region: seq<Byte>, overlap: nat, haystacks: seq<seq<Byte>>, sizes: seq<nat>, k: nat)
    requires k < |sizes| == |haystacks|
  {
    var span := Shown(sizes, overlap, k);
    span.lo <= span.hi <= |region| && haystacks[k] == region[span.lo..span.hi]
  }

  predicate Recorded(region: seq<Byte>, chunk: nat, overlap: nat, answer: nat -> Option<nat>,
                     haystacks: seq<seq<Byte>>, sizes: seq<nat>)
  {
    && |haystacks| == |sizes| && Offset(sizes, |sizes|) <= |region|
    && forall k :: 0 <= k < |sizes| ==>
         ReadRight(region, chunk, answer, sizes, k) && ShownRight(region, overlap, haystacks, sizes, k)
  }

  /** The read of `n` bytes at `offset`, behind what was carried over. */
  method NextChunk(hay: array<Byte>, region: seq<Byte>, ghost chunk: nat, overlap: nat, ghost answer: nat -> Option<nat>,
                   ghost haystacks: seq<seq<Byte>>, ghost sizes: seq<nat>, offset: nat, tailLen: nat, n: nat,
                   ghost front: seq<Byte>)
    returns (shown: seq<Byte>, to: nat, keep: nat, ghost kept: seq<Byte>)
    requires hay.Length == overlap + chunk && tailLen <= overlap && offset < |region|
    requires front == hay[..tailLen] && Standing(region, chunk, overlap, answer, haystacks, sizes, offset, front)
    requires answer(|sizes|).Some? && 0 < n == Min(answer(|sizes|).value, Min(chunk, |region| - offset))
    modifies hay
    ensures to == offset + n && keep <= overlap && kept == hay[..keep]
    ensures Standing(region, chunk, overlap, answer, haystacks + [shown], sizes + [n], to, kept)
  {
    shown, keep := ReadChunk(hay, tailLen, region[offset..offset + n], overlap);
    to, kept := offset + n, hay[..keep];
    ChunkStep(region, chunk, overlap, answer, haystacks, sizes, offset, front, n, shown, kept);
  }

  /** One read behind the carried tail; what the matcher sees, and the tail kept for the next read. */
  method ReadChunk(hay: array<Byte>, tailLen: nat, bytes: seq<Byte>, overlap: nat)
    returns (shown: seq<Byte>, keep: nat)
    requires tailLen + |bytes| <= hay.Length
    modifies hay
    ensures shown == old(hay[..tailLen]) + bytes
    ensures keep == Min(overlap, |bytes|) && hay[..keep] == bytes[|bytes| - keep..]
  {
    ReadInto(hay, tailLen, bytes);
    var total := tailLen + |bytes|;
    shown := hay[..total];
    assert shown == hay[..tailLen] + hay[tailLen..total];
    keep := Min(overlap, |bytes|);
    assert hay[total - keep..total] == hay[tailLen..total][|bytes| - keep..];
    ShiftDown(hay, total - keep, total);
  }

  lemma SliceSteps(region: seq<Byte>, lo: nat, mid: nat, hi: nat, keep: nat)
    requires lo <= mid <= hi <= |region| && keep <= hi - mid
    ensures region[lo..mid] + region[mid..hi] == region[lo..hi]
    ensures region[mid..hi][hi - mid - keep..] == region[hi - keep..hi]
  {
  }

  lemma ShownPrefix(sizes: seq<nat>, n: nat, next: seq<nat>, overlap: nat, k: nat)
    requires next == sizes + [n] && k < |sizes|
    ensures Offset(next, k) == Offset(sizes, k) && Shown(next, overlap, k) == Shown(sizes, overlap, k)
  {
    OffsetPrefix(sizes, n, k);
    OffsetPrefix(sizes, n, k + 1);
  }

  lemma ShownLast(sizes: seq<nat>, n: nat, next: seq<nat>, overlap: nat)
    requires next == sizes + [n]
    ensures Offset(next, |sizes|) == Offset(sizes, |sizes|) && Offset(next, |next|) == Offset(sizes, |sizes|) + n
    ensures Tail(next, overlap, |next|) == Min(overlap, n)
    ensures Shown(next, overlap, |sizes|)
         == Span(Offset(sizes, |sizes|) - Tail(sizes, overlap, |sizes|), Offset(sizes, |sizes|) + n)
  {
    OffsetPrefix(sizes, n, |sizes|);
  }

  /** An earlier read stays right when one more is recorded. */
  lemma RecordKept(region: seq<Byte>, chunk: nat, overlap: nat, answer: nat -> Option<nat>, haystacks: seq<seq<Byte>>,
                   sizes: seq<nat>, shown: seq<Byte>, n: nat, all: seq<seq<Byte>>, next: seq<nat>, k: nat)
    requires k < |sizes| == |haystacks| && all == haystacks + [shown] && next == sizes + [n]
    requires ReadRight(region, chunk, answer, sizes, k) && ShownRight(region, overlap, haystacks, sizes, k)
    ensures ReadRight(region, chunk, answer, next, k) && ShownRight(region, overlap, all, next, k)
  {
    ShownPrefix(sizes, n, next, overlap, k);
  }

  lemma RecordLast(region: seq<Byte>, chunk: nat, overlap: nat, answer: nat -> Option<nat>, haystacks: seq<seq<Byte>>,
                   sizes: seq<nat>, shown: seq<Byte>, n: nat, all: seq<seq<Byte>>, next: seq<nat>)
    requires |sizes| == |haystacks| && all == haystacks + [shown] && next == sizes + [n]
    requires Offset(sizes, |sizes|) + n <= |region| && Tail(sizes, overlap, |sizes|) <= Offset(sizes, |sizes|)
    requires answer(|sizes|).Some? && 0 < n == Min(answer(|sizes|).value, Min(chunk, |region| - Offset(sizes, |sizes|)))
    requires shown == region[Offset(sizes, |sizes|) - Tail(sizes, overlap, |sizes|)..Offset(sizes, |sizes|) + n]
    ensures ReadRight(region, chunk, answer, next, |sizes|) && ShownRight(region, overlap, all, next, |sizes|)
  {
    ShownLast(sizes, n, next, overlap);
  }

  /** Where the loop stands: what is recorded, the offset reached, and the tail at the front of the buffer. */
  predicate Standing(region: seq<Byte>, chunk: nat, overlap: nat, answer: nat -> Option<nat>, haystacks: seq<seq<Byte>>,
                     sizes: seq<nat>, offset: nat, front: seq<Byte>)
  {
    && Recorded(region, chunk, overlap, answer, haystacks, sizes)
    && offset == Offset(sizes, |sizes|)
    && |front| == Tail(sizes, overlap, |sizes|) <= offset
    && front == region[offset - |front|..offset]
  }

  /** One chunk more: `n` bytes are read behind the tail `front`, and all of it is shown. */
  lemma ChunkStep(region: seq<Byte>, chunk: nat, overlap: nat, answer: nat -> Option<nat>, haystacks: seq<seq<Byte>>,
                  sizes: seq<nat>, offset: nat, front: seq<Byte>, n: nat, shown: seq<Byte>, kept: seq<Byte>)
    requires Standing(region, chunk, overlap, answer, haystacks, sizes, offset, front)
    requires answer(|sizes|).Some? && 0 < n == Min(answer(|sizes|).value, Min(chunk, |region| - offset))
    requires shown == front + region[offset..offset + n]
    requires kept == region[offset..offset + n][n - Min(overlap, n)..]
    ensures Standing(region, chunk, overlap, answer, haystacks + [shown], sizes + [n], offset + n, kept)
  {
    var all, next := haystacks + [shown], sizes + [n];
    SliceSteps(region, offset - |front|, offset, offset + n, Min(overlap, n));
    ShownLast(sizes, n, next, overlap);
    RecordLast(region, chunk, overlap, answer, haystacks, sizes, shown, n, all, next);
    forall k | 0 <= k < |next|
      ensures ReadRight(region, chunk, answer, next, k) && ShownRight(region, overlap, all, next, k)
    {
      if k < |sizes| {
        RecordKept(region, chunk, overlap, answer, haystacks, sizes, shown, n, all, next, k);
      }
    }
  }

  method ReadInto(hay: array<Byte>, at: nat, bytes: seq<Byte>)
    requires at + |bytes| <= hay.Length
    modifies hay
    ensures hay[..at] == old(hay[..at]) && hay[at..at + |bytes|] == bytes
  {
    for i := 0 to |bytes|
      invariant hay[..at] == old(hay[..at])
      invariant hay[at..at + i] == bytes[..i]
    {
      hay[at + i] := bytes[i];
    }
  }

  /** `hay.copy_within(lo..hi, 0)`. */
  method ShiftDown(hay: array<Byte>, lo: nat, hi: nat)
    requires lo <= hi <= hay.Length
    modifies hay
    ensures hay[..hi - lo] == old(hay[lo..hi])
  {
    for i := 0 to hi - lo
      invariant hay[..i] == old(hay[lo..lo + i])
      invariant hay[lo + i..hi] == old(hay[lo + i..hi])
    {
      assert hay[lo + i] == hay[lo + i..hi][0] == old(hay[lo + i..hi])[0];
      hay[i] := hay[lo + i];
      assert forall j :: lo + i + 1 <= j < hi ==> hay[j] == old(hay[j]);
    }
  }

  // ----- what the matcher gets to see -----

  /** Bytes `a..b` of the region lie in one haystack. */
  predicate Seen(sizes: seq<nat>, overlap: nat, a: nat, b: nat) {
    exists k :: 0 <= k < |sizes| && Shown(sizes, overlap, k).lo <= a && b <= Shown(sizes, overlap, k).hi
  }

  predicate NonEmpty(sizes: seq<nat>) {
    forall k :: 0 <= k < |sizes| ==> sizes[k] > 0
  }

  /** Every read but the first and the last gives at least the overlap. */
  predicate MiddleReadsFill(sizes: seq<nat>, overlap: nat) {
    forall k :: 0 < k < |sizes| - 1 ==> sizes[k] >= overlap
  }

  /** The read that brings byte `at`. */
  lemma {:induction false} ReadOf(sizes: seq<nat>, n: nat, at: nat) returns (k: nat)
    requires n <= |sizes| && at < Offset(sizes, n)
    ensures k < n && Offset(sizes, k) <= at < Offset(sizes, k + 1)
  {
    if at >= Offset(sizes, n - 1) {
      k := n - 1;
    } else {
      k := ReadOf(sizes, n - 1, at);
    }
  }

  lemma {:induction false} OffsetGrows(sizes: seq<nat>, j: nat, k: nat)
    requires j <= k <= |sizes|
    ensures Offset(sizes, j) <= Offset(sizes, k)
  {
    if j < k {
      OffsetGrows(sizes, j, k - 1);
    }
  }

  lemma ShortPieceSeen(sizes: seq<nat>, overlap: nat, a: nat, b: nat)
    requires MiddleReadsFill(sizes, overlap)
    requires a < b <= Offset(sizes, |sizes|) && b - a <= overlap + 1
    ensures Seen(sizes, overlap, a, b)
  {
    var k := ReadOf(sizes, |sizes|, b - 1);
    assert Shown(sizes, overlap, k).hi >= b;
    if k == 1 {
      assert Offset(sizes, 1) == Offset(sizes, 0) + sizes[0];
    }
    assert Shown(sizes, overlap, k).lo <= a;
  }

  /** A middle read shorter than the overlap leaves some short piece out of every haystack. */
  lemma ShortPieceMissed(sizes: seq<nat>, overlap: nat, j: nat) returns (a: nat, b: nat)
    requires NonEmpty(sizes) && 0 < j < |sizes| - 1 && sizes[j] < overlap
    ensures a < b <= Offset(sizes, |sizes|) && b - a <= overlap + 1 && !Seen(sizes, overlap, a, b)
  {
    var at := Offset(sizes, j + 1);
    b := at + 1;
    a := if at >= overlap then at - overlap else 0;
    OffsetGrows(sizes, j + 2, |sizes|);
    assert sizes[j + 1] > 0 && sizes[0] > 0;
    OffsetGrows(sizes, 1, j);
    assert Offset(sizes, 1) == Offset(sizes, 0) + sizes[0];
    assert a < Offset(sizes, j);
    forall k | 0 <= k < |sizes|
      ensures !(Shown(sizes, overlap, k).lo <= a && b <= Shown(sizes, overlap, k).hi)
    {
      if k <= j {
        OffsetGrows(sizes, k + 1, j + 1);
      } else if k == j + 1 {
        assert Shown(sizes, overlap, k).lo == Offset(sizes, j);
      } else {
        OffsetGrows(sizes, j + 1, k - 1);
        TailBelow(sizes, overlap, k);
      }
    }
  }

  lemma TailBelow(sizes: seq<nat>, overlap: nat, k: nat)
    requires 0 < k < |sizes|
    ensures Shown(sizes, overlap, k).lo >= Offset(sizes, k - 1)
  {
  }

  /**
   * Every piece of at most one byte more than the overlap is shown whole to the matcher exactly
   * when every read but the first and the last gives at least the overlap.
   */
  lemma ShortPiecesSeen(sizes: seq<nat>, overlap: nat)
    requires NonEmpty(sizes)
    ensures (forall a: nat, b: nat :: a < b <= Offset(sizes, |sizes|) && b - a <= overlap + 1 ==> Seen(sizes, overlap, a, b))
       <==> MiddleReadsFill(sizes, overlap)
  {
    if MiddleReadsFill(sizes, overlap) {
      forall a: nat, b: nat | a < b <= Offset(sizes, |sizes|) && b - a <= overlap + 1
        ensures Seen(sizes, overlap, a, b)
      {
        ShortPieceSeen(sizes, overlap, a, b);
      }
    } else {
      var j :| 0 < j < |sizes| - 1 && sizes[j] < overlap;
      var a, b := ShortPieceMissed(sizes, overlap, j);
    }
  }

  /** Every read returns as much as was asked for. */
  predicate FullReads(size: nat, chunk: nat, sizes: seq<nat>) {
    && Offset(sizes, |sizes|) <= size
    && forall k :: 0 <= k < |sizes| ==> Offset(sizes, k) <= size && 0 < sizes[k] == Min(chunk, size - Offset(sizes, k))
  }

  /** Reads that return what is asked for always fill: only the last chunk of a region is short. */
  lemma FullReadsFill(size: nat, chunk: nat, overlap: nat, sizes: seq<nat>)
    requires overlap <= chunk && FullReads(size, chunk, sizes)
    ensures MiddleReadsFill(sizes, overlap)
  {
    forall k | 0 < k < |sizes| - 1
      ensures sizes[k] >= overlap
    {
      OffsetGrows(sizes, k + 2, |sizes|);
      assert Offset(sizes, k + 2) == Offset(sizes, k + 1) + sizes[k + 1];
      assert Offset(sizes, k + 1) == Offset(sizes, k) + sizes[k];
    }
  }

  lemma FullReadsSee(size: nat, chunk: nat, overlap: nat, sizes: seq<nat>, a: nat, b: nat)
    requires overlap <= chunk && FullReads(size, chunk, sizes)
    requires a < b <= Offset(sizes, |sizes|) && b - a <= overlap + 1
    ensures Seen(sizes, overlap, a, b)
  {
    FullReadsFill(size, chunk, overlap, sizes);
    ShortPieceSeen(sizes, overlap, a, b);
  }

  /** With the sizes of `scan_session`, full reads leave no piece of up to 97 bytes unseen. */
  lemma FullReadsSeeTokens(size: nat, sizes: seq<nat>, a: nat, b: nat)
    requires FullReads(size, CHUNK, sizes) && a < b <= Offset(sizes, |sizes|) && b - a <= OVERLAP + 1
    ensures Seen(sizes, OVERLAP, a, b)
  {
    FullReadsSee(size, CHUNK, OVERLAP, sizes, a, b);
  }

  predicate Holds(haystack: seq<Byte>, at: nat, piece: seq<Byte>) {
    at + |piece| <= |haystack| && haystack[at..at + |piece|] == piece
  }

  lemma SliceOfSlice(region: seq<Byte>, lo: nat, hi: nat, a: nat, b: nat)
    requires lo <= a <= b <= hi <= |region|
    ensures region[lo..hi][a - lo..b - lo] == region[a..b] && |region[a..b]| == b - a
  {
    var span := region[lo..hi];
    assert forall i :: 0 <= i < |span| ==> span[i] == region[lo + i];
    assert span[a - lo..b - lo] == region[a..b];
  }

  /** In particular nothing short enough is lost in what a region's loop hands to the matcher. */
  lemma NothingShortIsLost(region: seq<Byte>, chunk: nat, overlap: nat, answer: nat -> Option<nat>,
                           haystacks: seq<seq<Byte>>, sizes: seq<nat>, a: nat, b: nat)
    requires Recorded(region, chunk, overlap, answer, haystacks, sizes) && MiddleReadsFill(sizes, overlap)
    requires a < b <= Offset(sizes, |sizes|) && b - a <= overlap + 1
    ensures exists k: nat, at: nat :: k < |haystacks| && Holds(haystacks[k], at, region[a..b])
  {
    ShortPieceSeen(sizes, overlap, a, b);
    var k :| 0 <= k < |sizes| && Shown(sizes, overlap, k).lo <= a && b <= Shown(sizes, overlap, k).hi;
    var span := Shown(sizes, overlap, k);
    assert ShownRight(region, overlap, haystacks, sizes, k);
    SliceOfSlice(region, span.lo, span.hi, a, b);
    assert Holds(haystacks[k], a - span.lo, region[a..b]);
  }
}
