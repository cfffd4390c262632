/** Planning of chunks: inclusive int64 ranges with Go's wrapping arithmetic, and
    half-open keyset intervals between boundary tuples. */
module ChunkPlanner {
  import opened Wrappers
  import opened Keys
  import opened Reading
  import opened Partition

  const MAX64 := 0x7fff_ffff_ffff_ffff
  const MIN64 := -0x8000_0000_0000_0000
  const TWO64 := 0x1_0000_0000_0000_0000

  predicate Int64(x: int) {
    MIN64 <= x <= MAX64
  }

  /** The int64 value of a mathematical integer. */
  function Wrap(x: int): int {
    (x - MIN64) % TWO64 + MIN64
  }

  lemma WrapMeaning(x: int)
    ensures Int64(Wrap(x))
    ensures Int64(x) ==> Wrap(x) == x
    ensures MAX64 < x <= MAX64 + TWO64 ==> Wrap(x) == x - TWO64
    ensures MIN64 - TWO64 <= x < MIN64 ==> Wrap(x) == x + TWO64
  {
  }

  datatype PlanError = SpanNotPositive | TargetNotPositive | EmptyRange | RangeOverflow | EmptyBoundary

  datatype Chunk = Chunk(no: int, start: int, end: int)

  // ----- fixed spans

  /** The end of the chunk at `start`, computed as the program does: a sum that wraps
      compares below its start. */
  function ChunkEnd(start: int, span: int, maxPK: int): int {
    var end := Wrap(Wrap(start + span) - 1);
    if end < start || end > maxPK then maxPK else end
  }

  lemma ChunkEndIsExact(start: int, span: int, maxPK: int)
    requires Int64(start) && Int64(maxPK) && 0 < span <= MAX64 && start <= maxPK
    ensures ChunkEnd(start, span, maxPK) == if start + span - 1 > maxPK then maxPK else start + span - 1
  {
    WrapMeaning(start + span);
    WrapMeaning(Wrap(start + span) - 1);
  }

  /** What a plan over [min, max] with this span means: numbered, contiguous, disjoint,
      exactly covering, and all but the last of exactly `span` keys. */
  ghost predicate Covers(chunks: seq<Chunk>, min: int, max: int, span: int) {
    && chunks != [] && chunks[0].start == min && chunks[|chunks| - 1].end == max
    && (forall i | 0 <= i < |chunks| :: chunks[i].no == i + 1 && chunks[i].start <= chunks[i].end)
    && (forall i | 0 <= i < |chunks| - 1 ::
          chunks[i + 1].start == chunks[i].end + 1 && chunks[i].end - chunks[i].start + 1 == span)
    && chunks[|chunks| - 1].end - chunks[|chunks| - 1].start + 1 <= span
  }

  ghost predicate Filled(chunks: seq<Chunk>, min: int, start: int, span: int) {
    if chunks == [] then start == min
    else && Covers(chunks, min, start - 1, span)
         && chunks[|chunks| - 1].end - chunks[|chunks| - 1].start + 1 == span
  }

  lemma CoversAppend(chunks: seq<Chunk>, min: int, start: int, end: int, span: int)
    requires Filled(chunks, min, start, span) && start <= end && end - start + 1 <= span
    ensures Covers(chunks + [Chunk(|chunks| + 1, start, end)], min, end, span)
  {
  }

  method PlanIntegerRange(minPK: int, maxPK: int, span: int) returns (r: Result<seq<Chunk>, PlanError>)
    requires Int64(minPK) && Int64(maxPK) && Int64(span)
    ensures r.Err? <==> span <= 0 || minPK > maxPK
    ensures r.Ok? ==> Covers(r.value, minPK, maxPK, span)
  {
    if span <= 0 {
      return Err(SpanNotPositive);
    }
    if minPK > maxPK {
      return Err(EmptyRange);
    }
    var chunks: seq<Chunk> := [];
    var start, chunkNo := minPK, 1;
    while start <= maxPK
      invariant minPK <= start <= maxPK && chunkNo == |chunks| + 1
      invariant Filled(chunks, minPK, start, span)
      decreases maxPK - start
    {
      ChunkEndIsExact(start, span, maxPK);
      var end := Wrap(Wrap(start + span) - 1);
      if end < start || end > maxPK {
        end := maxPK;
      }
      CoversAppend(chunks, minPK, start, end, span);
      chunks := chunks + [Chunk(chunkNo, start, end)];
      if end == maxPK {
        break;
      }
      WrapMeaning(end + 1);
      start := Wrap(end + 1);
      chunkNo := chunkNo + 1;
    }
    return Ok(chunks);
  }

  lemma {:induction false} CoversStart(chunks: seq<Chunk>, min: int, max: int, span: int, k: nat)
    requires Covers(chunks, min, max, span) && k < |chunks|
    ensures chunks[k].start == min + k * span
  {
    if k > 0 {
      CoversStart(chunks, min, max, span, k - 1);
      assert (k - 1) * span + span == k * span;
    }
  }

  /** The number of chunks is the width divided by the span, rounded up. */
  lemma CoversCount(chunks: seq<Chunk>, min: int, max: int, span: int)
    requires Covers(chunks, min, max, span)
    ensures (|chunks| - 1) * span < max - min + 1 <= |chunks| * span
  {
    CoversStart(chunks, min, max, span, |chunks| - 1);
    assert |chunks| * span == (|chunks| - 1) * span + span;
  }

  /** Every integer of the range lies in exactly one chunk. */
  lemma CoversEachKeyOnce(chunks: seq<Chunk>, min: int, max: int, span: int, k: int)
    requires Covers(chunks, min, max, span)
    ensures Hits(PiecesOf(chunks), [k]) == if min <= k <= max then 1 else 0
  {
    CoversFrom(chunks, min, max, span, 0, k);
  }

  function PiecesOf(chunks: seq<Chunk>): seq<Piece> {
    if chunks == [] then [] else [Piece(RangeBounds(chunks[0].start, chunks[0].end), [])] + PiecesOf(chunks[1..])
  }

  lemma {:induction false} CoversFrom(chunks: seq<Chunk>, min: int, max: int, span: int, i: nat, k: int)
    requires Covers(chunks, min, max, span) && i <= |chunks|
    ensures Hits(PiecesOf(chunks[i..]), [k]) == if i < |chunks| && chunks[i].start <= k <= max then 1 else 0
    decreases |chunks| - i
  {
    if i < |chunks| {
      CoversFrom(chunks, min, max, span, i + 1, k);
      assert chunks[i..][1..] == chunks[i + 1..];
      var all := PiecesOf(chunks[i..]);
      assert all[1..] == PiecesOf(chunks[i + 1..]);
      LastEnd(chunks, min, max, span, i);
    }
  }

  lemma {:induction false} LastEnd(chunks: seq<Chunk>, min: int, max: int, span: int, i: nat)
    requires Covers(chunks, min, max, span) && i < |chunks|
    ensures chunks[i].end <= max
    decreases |chunks| - i
  {
    if i + 1 < |chunks| {
      LastEnd(chunks, min, max, span, i + 1);
    }
  }

  // ----- spans from a row target

  /** Go's division and remainder of non-negative operands. */
  function SpanFor(width: int, count: int): int
    requires width > 0 && count > 0
  {
    var span := width / count;
    var rounded := if width % count != 0 then span + 1 else span;
    if rounded < 1 then 1 else rounded
  }

  lemma DivisionParts(width: int, count: int)
    requires width > 0 && count > 0
    ensures width == (width / count) * count + width % count && 0 <= width % count < count
    ensures width / count >= 0 && (width / count) * count <= width
  {
  }

  lemma MulMonotone(a: int, b: int, m: int)
    requires a <= b && m >= 0
    ensures a * m <= b * m
  {
  }

  lemma SpanForMeaning(width: int, count: int)
    requires 0 < width && count > 0
    ensures 1 <= SpanFor(width, count) <= width && SpanFor(width, count) * count >= width
  {
    DivisionParts(width, count);
    var span := width / count;
    MulMonotone(1, count, span);
    assert (span + 1) * count == span * count + count;
  }

  /** The span is the width divided by the number of chunks, rounded up. */
  lemma SpanIsRoundedUp(width: int, count: int)
    requires width > 0 && count > 0
    ensures SpanFor(width, count) == (width + count - 1) / count
  {
    DivisionParts(width, count);
    var q, r := width / count, width % count;
    if r == 0 {
      QuotientOf(width + count - 1, count, q, count - 1);
    } else {
      assert (q + 1) * count == q * count + count;
      QuotientOf(width + count - 1, count, q + 1, r - 1);
    }
  }

  lemma QuotientOf(n: int, count: int, q: int, r: int)
    requires n >= 0 && count > 0 && n == q * count + r && 0 <= r < count
    ensures n / count == q
  {
    var p, s := n / count, n % count;
    assert n == p * count + s && 0 <= s < count;
    if p > q {
      MulMonotone(q + 1, p, count);
    } else if p < q {
      MulMonotone(p + 1, q, count);
    }
  }

  /** The limits of int64 and the wrap-around, in decimal. */
  lemma Int64Meaning(x: int, k: int)
    ensures Int64(x) <==> -9223372036854775808 <= x <= 9223372036854775807
    ensures Int64(x) ==> Wrap(x + k * 18446744073709551616) == x
    ensures MAX64 == 9223372036854775807 && MIN64 == -9223372036854775808
  {
  }

  lemma FewerChunks(n: int, span: int, width: int, count: int)
    requires span >= 1 && (n - 1) * span < width <= span * count
    ensures n <= count
  {
    if n > count {
      MulMonotone(count, n - 1, span);
    }
  }

  /** A row target becomes a span, the width of the range divided by the targeted number of
      chunks and rounded up; the plan then has at most that number of chunks, which is `ceil`,
      the rounded-up floating-point quotient, whatever its rounding error.
      The overflow error is reported exactly for ranges wider than int64, where the wrapped
      width is not positive. */
  method PlanIntegerRangeByRows(minPK: int, maxPK: int, estimatedRows: int, targetRows: int, ceil: (int, int) -> int)
    returns (r: Result<seq<Chunk>, PlanError>)
    requires Int64(minPK) && Int64(maxPK) && Int64(estimatedRows) && Int64(targetRows)
    ensures targetRows <= 0 ==> r == Err(TargetNotPositive)
    ensures targetRows > 0 && minPK > maxPK ==> r == Err(EmptyRange)
    ensures targetRows > 0 && minPK <= maxPK ==> (r == Err(RangeOverflow) <==> maxPK - minPK + 1 > MAX64)
    ensures targetRows > 0 && minPK <= maxPK && maxPK - minPK + 1 <= MAX64 ==>
              var estimate := if estimatedRows <= 0 then maxPK - minPK + 1 else estimatedRows;
              var count := if ceil(estimate, targetRows) < 1 then 1 else ceil(estimate, targetRows);
              && r.Ok? && Covers(r.value, minPK, maxPK, (maxPK - minPK + count) / count) && 1 <= |r.value| <= count
  {
    if targetRows <= 0 {
      return Err(TargetNotPositive);
    }
    if minPK > maxPK {
      return Err(EmptyRange);
    }
    WrapMeaning(maxPK - minPK);
    WrapMeaning(Wrap(maxPK - minPK) + 1);
    var estimated := estimatedRows;
    if estimated <= 0 {
      estimated := Wrap(Wrap(maxPK - minPK) + 1);
    }
    var chunkCount := ceil(estimated, targetRows);
    if chunkCount < 1 {
      chunkCount := 1;
    }
    var rangeSize := Wrap(Wrap(maxPK - minPK) + 1);
    if rangeSize <= 0 {
      return Err(RangeOverflow);
    }
    var span := SpanFor(rangeSize, chunkCount);
    SpanForMeaning(rangeSize, chunkCount);
    SpanIsRoundedUp(rangeSize, chunkCount);
    r := PlanIntegerRange(minPK, maxPK, span);
    CoversCount(r.value, minPK, maxPK, span);
    FewerChunks(|r.value|, span, rangeSize, chunkCount);
  }

  // ----- keyset boundaries

  /** The chunks from the i-th on. */
  function ChunksFrom(lower: Key, boundaries: seq<Key>, i: nat): seq<NumberedPiece> {
    if i > |boundaries| then [] else NumberFrom(KeysetPieces(lower, boundaries[i..], []), i + 1)
  }

  function UpperAt(boundaries: seq<Key>, i: nat): Key {
    if i < |boundaries| then boundaries[i] else []
  }

  lemma NextChunk(chunks: seq<NumberedPiece>, lower: Key, boundaries: seq<Key>, i: nat)
    requires i <= |boundaries|
    ensures var upper := UpperAt(boundaries, i);
            chunks + ChunksFrom(lower, boundaries, i) ==
            chunks + [NumberedPiece(i + 1, Piece(KeysetBounds(lower, upper), []))] + ChunksFrom(upper, boundaries, i + 1)
  {
    NumberFirst(lower, boundaries[i..], [], i + 1);
    if i < |boundaries| {
      assert boundaries[i..][1..] == boundaries[i + 1..];
    }
  }

  /** [lower, upper) chunks between the boundaries, numbered from 1; an empty boundary is
      refused. */
  method PlanBoundedKeyset(boundaries: seq<Key>) returns (r: Result<seq<NumberedPiece>, PlanError>)
    ensures r.Err? <==> !NonEmptyKeys(boundaries)
    ensures r.Ok? ==> r.value == NumberFrom(KeysetPieces([], boundaries, []), 1)
  {
    var chunks: seq<NumberedPiece> := [];
    var lower: Key := [];
    for i := 0 to |boundaries| + 1
      invariant forall j | 0 <= j < i && j < |boundaries| :: boundaries[j] != []
      invariant chunks + ChunksFrom(lower, boundaries, i) == ChunksFrom([], boundaries, 0)
    {
      var upper: Key := [];
      if i < |boundaries| {
        upper := boundaries[i];
        if upper == [] {
          return Err(EmptyBoundary);
        }
      }
      NextChunk(chunks, lower, boundaries, i);
      chunks := chunks + [NumberedPiece(i + 1, Piece(KeysetBounds(lower, upper), []))];
      lower := upper;
    }
    assert boundaries[0..] == boundaries;
    return Ok(chunks);
  }

  ghost predicate OnePiecePerKey(pieces: seq<Piece>) {
    forall k: Key | k != [] :: Hits(pieces, k) == 1
  }

  /** Every key lies in exactly one chunk precisely when the boundaries are sorted. */
  lemma KeysetChunksPartitionIffSorted(boundaries: seq<Key>)
    requires NonEmptyKeys(boundaries)
    ensures OnePiecePerKey(KeysetPieces([], boundaries, [])) <==> Ascending([], boundaries, [])
  {
    if Ascending([], boundaries, []) {
      forall k: Key | k != [] ensures Hits(KeysetPieces([], boundaries, []), k) == 1 {
        OrderedIntervalsHitOnce([], boundaries, [], k);
      }
    } else {
      DisorderOverlaps([], boundaries, []);
      var k :| Overlap([], boundaries, [], k);
      assert k != [] && Hits(KeysetPieces([], boundaries, []), k) != 1;
    }
  }

  /** Between the boundaries 2 and 1 two chunks read the key 1. */
  lemma UnsortedReadsTwice()
    ensures Hits(KeysetPieces([], [[2], [1]], []), [1]) == 2
  {
    var all := KeysetPieces([], [[2], [1]], []);
    assert [[2], [1]][1..] == [[1]] && [[1]][1..] == [];
    SingleLess([1], [2]);
    SingleLess([2], [1]);
    assert all[1..] == KeysetPieces([2], [[1]], []);
    assert all[1..][1..] == [Piece(KeysetBounds([1], []), [])] && all[1..][1..][1..] == [];
    LessIrreflexive([1]);
  }
}
