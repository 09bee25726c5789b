/**
 Chunk arithmetic: cutting a byte range of a volume into per-chunk ranges.
 Integers that the program keeps in int64 wrap here as they do there.
 */
module Chunks {
  import opened Bytes

  const TWO_63: int := 0x8000_0000_0000_0000

  type Int64 = x: int | -TWO_63 <= x < TWO_63

  /** Two's-complement truncation to 64 bits. */
  function Wrap64(x: int): (r: Int64)
    ensures -TWO_63 <= x < TWO_63 ==> r == x
    ensures TWO_63 <= x < 3 * TWO_63 ==> r == x - 2 * TWO_63
  {
    (x + TWO_63) % (2 * TWO_63) - TWO_63
  }

  /** It differs by a multiple of 2^64, and is the only int64 value that does. */
  lemma WrapMeaning(x: int, r: Int64)
    ensures Wrap64(x) == r <==> (x - r) % 0x1_0000_0000_0000_0000 == 0
  {
  }

  datatype ChunkRange = ChunkRange(index: int, chunkStart: int, reqStart: int, reqEnd: int)

  /** The part of `[offset, offset + length)` that lies in chunk `index`. */
  function RangeIn(offset: nat, length: nat, chunkSize: int, index: int): ChunkRange {
    var start := Max(offset, index * chunkSize);
    ChunkRange(index, start - index * chunkSize, start, Min(offset + length, index * chunkSize + chunkSize))
  }

  function ChunkCount(offset: nat, length: nat, chunkSize: int): (n: nat)
    requires chunkSize > 0
    ensures (n == 0) == (length == 0)
  {
    if length == 0 then 0
    else
      DivMonotone(offset, offset + length - 1, chunkSize);
      (offset + length - 1) / chunkSize - offset / chunkSize + 1
  }

  /** The ranges of a request, one per chunk it touches, in order. */
  function Ranges(offset: nat, length: nat, chunkSize: int): (rs: seq<ChunkRange>)
    requires chunkSize > 0
  {
    seq(ChunkCount(offset, length, chunkSize), k => RangeIn(offset, length, chunkSize, offset / chunkSize + k))
  }

  /** The end of the last touched chunk is representable. */
  predicate Fits(offset: nat, length: nat, chunkSize: int)
    requires chunkSize > 0
  {
    length == 0 || (offset + length - 1) / chunkSize * chunkSize + chunkSize < TWO_63
  }

  // ----- Division facts -----

  lemma DivBounds(x: nat, d: int)
    requires d > 0
    ensures 0 <= x / d * d <= x < x / d * d + d
    ensures 0 <= x / d <= x
  {
    QuotientBounds(x, x / d, x % d, d);
  }

  lemma QuotientBounds(x: nat, q: int, r: int, d: int)
    requires x == q * d + r && 0 <= r < d
    ensures 0 <= q * d && 0 <= q <= x
  {
    MulOrder(0, q, d);
    if q > 0 {
      MulDifference(d, 1, q);
    }
  }

  lemma DivMonotone(x: nat, y: nat, d: int)
    requires d > 0 && x <= y
    ensures x / d <= y / d
  {
    DivBounds(x, d);
    DivBounds(y, d);
    MulOrder(x / d, y / d, d);
  }

  lemma MulOrder(a: int, b: int, d: int)
    requires d > 0
    ensures a * d > b * d <==> a > b
    ensures a > b ==> a * d >= b * d + d
  {
    if a > b {
      MulDifference(a, b + 1, d);
    } else {
      MulDifference(b, a, d);
    }
  }

  lemma MulDifference(a: int, b: int, d: int)
    requires d > 0 && a >= b
    ensures a * d >= b * d
    ensures b * d == (b - 1) * d + d
  {
    assert a * d - b * d == (a - b) * d;
  }

  /** The chunk and the position inside it of byte `p`. */
  lemma ChunkOfByte(p: nat, chunkSize: int, index: int)
    requires chunkSize > 0
    requires index * chunkSize <= p < index * chunkSize + chunkSize
    ensures p / chunkSize == index
    ensures p % chunkSize == p - index * chunkSize
  {
    DivBounds(p, chunkSize);
    MulOrder(p / chunkSize + 1, index, chunkSize);
    MulOrder(index + 1, p / chunkSize, chunkSize);
    assert p == p / chunkSize * chunkSize + p % chunkSize;
  }

  // ----- The ranges partition the request -----

  /** Each range is non-empty, lies in its own chunk at `chunkStart`, and starts where its predecessor ended. */
  lemma RangeFacts(offset: nat, length: nat, chunkSize: int, k: nat)
    requires chunkSize > 0
    requires k < |Ranges(offset, length, chunkSize)|
    ensures
      var rs := Ranges(offset, length, chunkSize);
      var r := rs[k];
      && offset <= r.reqStart < r.reqEnd <= offset + length
      && 0 <= r.chunkStart == r.reqStart - r.index * chunkSize
      && r.chunkStart + (r.reqEnd - r.reqStart) <= chunkSize
      && 0 <= r.index < offset + length
      && r.index == offset / chunkSize + k
      && (k == 0 ==> r.reqStart == offset)
      && (k == |rs| - 1 ==> r.reqEnd == offset + length)
      && (k < |rs| - 1 ==> r.reqEnd == rs[k + 1].reqStart == r.index * chunkSize + chunkSize)
  {
    var first, last := offset / chunkSize, (offset + length - 1) / chunkSize;
    var i := first + k;
    DivBounds(offset, chunkSize);
    DivBounds(offset + length - 1, chunkSize);
    MulOrder(last, i, chunkSize);
    MulOrder(i, first, chunkSize);
    var rs := Ranges(offset, length, chunkSize);
    assert rs[k] == RangeIn(offset, length, chunkSize, i);
    if k < |rs| - 1 {
      assert rs[k + 1] == RangeIn(offset, length, chunkSize, i + 1);
      assert (i + 1) * chunkSize == i * chunkSize + chunkSize;
    }
  }

  /** Every byte of a range belongs to the range's chunk. */
  lemma RangeBytes(offset: nat, length: nat, chunkSize: int, k: nat, p: nat)
    requires chunkSize > 0
    requires k < |Ranges(offset, length, chunkSize)|
    requires var r := Ranges(offset, length, chunkSize)[k]; r.reqStart <= p < r.reqEnd
    ensures
      var r := Ranges(offset, length, chunkSize)[k];
      p / chunkSize == r.index && p % chunkSize == r.chunkStart + (p - r.reqStart)
  {
    RangeFacts(offset, length, chunkSize, k);
    var r := Ranges(offset, length, chunkSize)[k];
    ChunkOfByte(p, chunkSize, r.index);
  }

  /** Where the first `n` ranges of a request end. */
  function Reached(offset: int, rs: seq<ChunkRange>, n: nat): int
    requires n <= |rs|
  {
    if n == 0 then offset else rs[n - 1].reqEnd
  }

  /** The next range starts where the first `n` end, and all of them end with the request. */
  lemma ReachedFacts(offset: nat, length: nat, chunkSize: int, n: nat)
    requires chunkSize > 0
    requires n <= |Ranges(offset, length, chunkSize)|
    ensures
      var rs := Ranges(offset, length, chunkSize);
      && offset <= Reached(offset, rs, n) <= offset + length
      && (n < |rs| ==> rs[n].reqStart == Reached(offset, rs, n) < rs[n].reqEnd == Reached(offset, rs, n + 1))
      && (n == |rs| ==> Reached(offset, rs, n) == offset + length)
  {
    if n < |Ranges(offset, length, chunkSize)| {
      RangeFacts(offset, length, chunkSize, n);
    }
    if n > 0 {
      RangeFacts(offset, length, chunkSize, n - 1);
    }
  }

  /** An empty request has no ranges and always fits. */
  lemma NoRanges(offset: nat, length: nat, chunkSize: int)
    requires 0 < chunkSize
    ensures |MachineRanges(offset, length, chunkSize)| == |Ranges(offset, length, chunkSize)|
    ensures |Ranges(offset, length, chunkSize)| == ChunkCount(offset, length, chunkSize)
    ensures Ranges(offset, length, chunkSize) == [] <==> length == 0
    ensures Ranges(offset, length, chunkSize) == [] ==> Fits(offset, length, chunkSize)
  {
  }

  /** The bytes of `s` that the ranges name, in order. */
  ghost function Gather(s: Bytes, rs: seq<ChunkRange>): Bytes
    requires forall r :: r in rs ==> 0 <= r.reqStart <= r.reqEnd <= |s|
  {
    if rs == [] then []
    else Gather(s, rs[..|rs| - 1]) + s[rs[|rs| - 1].reqStart..rs[|rs| - 1].reqEnd]
  }

  /**
   The ranges cut `[offset, offset + length)` exactly: over any byte string
   they gather that slice, nothing is skipped, repeated or reordered.
   */
  lemma RangesPartition(s: Bytes, offset: nat, length: nat, chunkSize: int)
    requires chunkSize > 0
    requires offset + length <= |s|
    ensures forall r :: r in Ranges(offset, length, chunkSize) ==> 0 <= r.reqStart <= r.reqEnd <= |s|
    ensures Gather(s, Ranges(offset, length, chunkSize)) == s[offset..offset + length]
  {
    var rs := Ranges(offset, length, chunkSize);
    forall r | r in rs
      ensures 0 <= r.reqStart <= r.reqEnd <= |s|
    {
      var k :| 0 <= k < |rs| && rs[k] == r;
      RangeFacts(offset, length, chunkSize, k);
    }
    assert rs[..|rs|] == rs;
    GatherPrefix(s, offset, length, chunkSize, |rs|);
    if |rs| > 0 {
      RangeFacts(offset, length, chunkSize, |rs| - 1);
    }
  }

  lemma {:induction false} GatherPrefix(s: Bytes, offset: nat, length: nat, chunkSize: int, n: nat)
    requires chunkSize > 0
    requires offset + length <= |s|
    requires n <= |Ranges(offset, length, chunkSize)|
    requires forall r :: r in Ranges(offset, length, chunkSize) ==> 0 <= r.reqStart <= r.reqEnd <= |s|
    ensures offset <= Reached(offset, Ranges(offset, length, chunkSize), n) <= |s|
    ensures Gather(s, Ranges(offset, length, chunkSize)[..n])
         == s[offset..Reached(offset, Ranges(offset, length, chunkSize), n)]
  {
    if n > 0 {
      var rs := Ranges(offset, length, chunkSize);
      GatherPrefix(s, offset, length, chunkSize, n - 1);
      RangeFacts(offset, length, chunkSize, n - 1);
      assert rs[..n][..n - 1] == rs[..n - 1];
      if n > 1 {
        RangeFacts(offset, length, chunkSize, n - 2);
      }
    }
  }

  // ----- The program's own computation, on int64 -----

  /** A part of a request that can be cut into ranges can be too. */
  lemma FitsWithin(offset: nat, length: nat, inner: nat, n: nat, chunkSize: int)
    requires chunkSize > 0 && offset <= inner && inner + n <= offset + length && Fits(offset, length, chunkSize)
    ensures Fits(inner, n, chunkSize)
  {
    if n > 0 {
      var mine, last := (inner + n - 1) / chunkSize, (offset + length - 1) / chunkSize;
      DivMonotone(inner + n - 1, offset + length - 1, chunkSize);
      MulDifference(last, mine, chunkSize);
    }
  }

  /** A chunk size that leaves room above the request keeps every intermediate value in int64. */
  lemma FitsWhenRoomAbove(offset: nat, length: nat, chunkSize: int)
    requires chunkSize > 0
    requires offset + length - 1 + chunkSize < TWO_63
    ensures Fits(offset, length, chunkSize)
  {
    if length > 0 {
      DivBounds(offset + length - 1, chunkSize);
    }
  }

  /**
   What int64 arithmetic makes of the ranges. They are the true ones as long as
   the end of the last chunk is representable; past that the end of the last
   range is 2^64 short.
   */
  function MachineRanges(offset: nat, length: nat, chunkSize: int): seq<ChunkRange>
    requires chunkSize > 0
  {
    var rs := Ranges(offset, length, chunkSize);
    if Fits(offset, length, chunkSize) then rs
    else
      var last := rs[|rs| - 1];
      rs[..|rs| - 1] + [last.(reqEnd := last.index * chunkSize + chunkSize - 2 * TWO_63)]
  }

  /** The range is the last one and the end of its chunk is not representable. */
  predicate Overruns(offset: nat, length: nat, chunkSize: int, k: nat)
    requires chunkSize > 0
  {
    k + 1 == ChunkCount(offset, length, chunkSize) && !Fits(offset, length, chunkSize)
  }

  /** How far the end of the last chunk that a request touches lies beyond the request. */
  function Beyond(offset: nat, length: nat, chunkSize: int): int
    requires chunkSize > 0 && length > 0
  {
    (offset + length - 1) / chunkSize * chunkSize + chunkSize - (offset + length)
  }

  /** A request that does not fit has a last range, and that overruns. */
  lemma OverrunsWhenUnfit(offset: nat, length: nat, chunkSize: int, n: nat)
    requires chunkSize > 0 && n == |Ranges(offset, length, chunkSize)|
    ensures !Fits(offset, length, chunkSize) ==> n > 0 && Overruns(offset, length, chunkSize, n - 1)
    ensures forall k :: Overruns(offset, length, chunkSize, k) ==> !Fits(offset, length, chunkSize) && k == n - 1
  {
  }

  /** How long the program takes a range to be: right, or, where it overruns, up to the end of its chunk. */
  lemma MachineRangeFacts(offset: nat, length: nat, chunkSize: int, k: nat)
    requires 0 < chunkSize < TWO_63 && offset + length < TWO_63
    requires k < |Ranges(offset, length, chunkSize)|
    ensures |MachineRanges(offset, length, chunkSize)| == |Ranges(offset, length, chunkSize)|
    ensures
      var r, m := Ranges(offset, length, chunkSize)[k], MachineRanges(offset, length, chunkSize)[k];
      && m.index == r.index && m.chunkStart == r.chunkStart && m.reqStart == r.reqStart
      && (if Overruns(offset, length, chunkSize, k)
          then Wrap64(m.reqEnd - m.reqStart) == chunkSize - r.chunkStart > r.reqEnd - r.reqStart
          else Wrap64(m.reqEnd - m.reqStart) == r.reqEnd - r.reqStart)
  {
    RangeFacts(offset, length, chunkSize, k);
    LastIndex(offset, length, chunkSize);
    hide Ranges, Fits, Wrap64;
    var r := Ranges(offset, length, chunkSize)[k];
    if Overruns(offset, length, chunkSize, k) {
      OverrunLength(r.index * chunkSize, chunkSize, r.reqStart, r.reqEnd);
    }
  }

  lemma LastIndex(offset: nat, length: nat, chunkSize: int)
    requires 0 < chunkSize
    ensures |Ranges(offset, length, chunkSize)| == ChunkCount(offset, length, chunkSize)
    ensures length > 0 ==>
              var rs := Ranges(offset, length, chunkSize);
              && rs != []
              && rs[|rs| - 1].index * chunkSize + chunkSize == offset + length + Beyond(offset, length, chunkSize)
    ensures !Fits(offset, length, chunkSize) ==>
              var rs := Ranges(offset, length, chunkSize);
              && rs != [] && rs[|rs| - 1].index * chunkSize + chunkSize >= TWO_63
  {
    if length > 0 {
      RangeFacts(offset, length, chunkSize, |Ranges(offset, length, chunkSize)| - 1);
    }
  }

  lemma OverrunLength(start: int, chunkSize: int, reqStart: int, reqEnd: int)
    requires 0 <= start <= reqStart < reqEnd < TWO_63 <= start + chunkSize && reqEnd <= start + chunkSize
    requires 0 < chunkSize < TWO_63
    ensures Wrap64(start + chunkSize - 2 * TWO_63 - reqStart) == chunkSize - (reqStart - start) > reqEnd - reqStart
  {
  }

  /** Splits a request into chunk ranges with wrapping int64 arithmetic. */
  method ChunkIndexes(offset: Int64, length: Int64, chunkSize: Int64) returns (r: Result<seq<ChunkRange>>)
    ensures r.Err? <==> offset < 0 || length < 0 || chunkSize <= 0 || (length > 0 && offset + length >= TWO_63)
    ensures r.Err? ==> r.error == OutOfRange
    ensures r.Ok? ==> r.value == MachineRanges(offset, length, chunkSize)
    ensures r.Ok? ==> (r.value == Ranges(offset, length, chunkSize) <==> Fits(offset, length, chunkSize))
  {
    hide MachineRanges, Ranges, Fits, Wrap64, Min, Max;
    if offset < 0 || length < 0 || chunkSize <= 0 {
      return Err(OutOfRange);
    }
    NoRanges(offset, length, chunkSize);
    if length == 0 {
      return Ok([]);
    }
    var end := Wrap64(offset + length);
    if end < offset {
      return Err(OutOfRange);
    }
    var first, last := offset / chunkSize, (end - 1) / chunkSize;
    DivBounds(offset, chunkSize);
    DivBounds(end - 1, chunkSize);
    MulOrder(first, last, chunkSize);
    var out: seq<ChunkRange> := [];
    var idx := first;
    while idx <= last
      invariant first <= idx <= last + 1
      invariant |out| == idx - first
      invariant forall k :: 0 <= k < |out| ==> out[k] == WrappedRange(offset, end, chunkSize, first + k)
    {
      MulOrder(last, idx, chunkSize);
      var chunkAbsStart := Wrap64(idx * chunkSize);
      var chunkAbsEnd := Wrap64(chunkAbsStart + chunkSize);
      var reqStart := Max(offset, chunkAbsStart);
      var reqEnd := Min(end, chunkAbsEnd);
      out := out + [ChunkRange(idx, Wrap64(reqStart - chunkAbsStart), reqStart, reqEnd)];
      idx := idx + 1;
    }
    WrappedRangesExact(offset, length, chunkSize, out);
    r := Ok(out);
  }

  function WrappedRange(offset: Int64, end: Int64, chunkSize: Int64, index: int): ChunkRange {
    var start := Wrap64(index * chunkSize);
    var reqStart := Max(offset, start);
    ChunkRange(index, Wrap64(reqStart - start), reqStart, Min(end, Wrap64(start + chunkSize)))
  }

  /** Wrapping leaves a range alone while the end of its chunk is representable, and turns its end negative after. */
  lemma WrappedRangeExact(offset: Int64, length: Int64, chunkSize: Int64, index: int)
    requires 0 <= offset && 0 < length && offset + length < TWO_63 && 0 < chunkSize
    requires 0 <= index <= (offset + length - 1) / chunkSize
    ensures
      var end := index * chunkSize + chunkSize;
      && end - 2 * TWO_63 < 0
      && WrappedRange(offset, offset + length, chunkSize, index) ==
         if end < TWO_63 then RangeIn(offset, length, chunkSize, index)
         else RangeIn(offset, length, chunkSize, index).(reqEnd := end - 2 * TWO_63)
  {
    DivBounds(offset + length - 1, chunkSize);
    MulOrder(index, (offset + length - 1) / chunkSize, chunkSize);
    MulDifference(index, 0, chunkSize);
  }

  lemma WrappedRangesExact(offset: Int64, length: Int64, chunkSize: Int64, out: seq<ChunkRange>)
    requires 0 <= offset && 0 < length && offset + length < TWO_63 && 0 < chunkSize
    requires |out| == (offset + length - 1) / chunkSize - offset / chunkSize + 1
    requires forall k :: 0 <= k < |out| ==>
               out[k] == WrappedRange(offset, offset + length, chunkSize, offset / chunkSize + k)
    ensures out == MachineRanges(offset, length, chunkSize)
    ensures out == Ranges(offset, length, chunkSize) <==> Fits(offset, length, chunkSize)
  {
    hide WrappedRange, RangeIn;
    var rs := Ranges(offset, length, chunkSize);
    var first, last := offset / chunkSize, (offset + length - 1) / chunkSize;
    DivBounds(offset, chunkSize);
    DivBounds(offset + length - 1, chunkSize);
    forall k | 0 <= k < |out|
      ensures k < |out| - 1 || Fits(offset, length, chunkSize) ==> out[k] == rs[k]
    {
      WrappedRangeExact(offset, length, chunkSize, first + k);
      MulOrder(last, first + k, chunkSize);
    }
    WrappedRangeExact(offset, length, chunkSize, last);
    RangeFacts(offset, length, chunkSize, last - first);
  }

  /** The last range does go wrong: one byte in the last chunk of the int64 range gets a negative end. */
  lemma LastChunkOverflows()
    ensures !Fits(TWO_63 - 2, 1, 2)
    ensures
      var index := (TWO_63 - 2) / 2;
      WrappedRange(TWO_63 - 2, TWO_63 - 1, 2, index) == ChunkRange(index, 0, TWO_63 - 2, -TWO_63)
  {
  }
}
