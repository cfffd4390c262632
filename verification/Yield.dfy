/** What the control plane does with a chunk whose worker yielded after a commit: the
    chunk ends at the committed cursor and the rest becomes new pending chunks. */
module Yield {
  import opened Wrappers
  import opened Keys
  import opened Reading
  import opened Partition
  import opened ChunkPlanner

  /** How many pieces are wanted, and the keys that boundary planning found to cut at. */
  datatype Split = Split(pieces: int, found: seq<Key>)

  datatype YieldError = Gap

  function PieceCount(wanted: int, remaining: int): int {
    var capped := if remaining > 0 && wanted > remaining then remaining else wanted;
    if capped < 1 then 1 else capped
  }

  function NumericRemainders(after: int, end: int, wanted: int): seq<Piece>
    requires after < end
  {
    var remaining := end - after;
    var pieces := PieceCount(wanted, remaining);
    RangePieces(after + 1, 0, pieces, remaining / pieces, remaining % pieces)
  }

  /** The first `room` keys that have not been seen. */
  function NewPoints(found: seq<Key>, seen: set<Key>, room: int): seq<Key>
    decreases |found|
  {
    if found == [] || room <= 0 then []
    else if found[0] in seen then NewPoints(found[1..], seen, room)
    else [found[0]] + NewPoints(found[1..], seen + {found[0]}, room - 1)
  }

  function Points(cursor: Key, upper: Key, split: Split): seq<Key> {
    NewPoints(split.found, {cursor, upper}, PieceCount(split.pieces, 0) - 1)
  }

  /** The first remainder resumes behind the cursor; its lower bound is the cursor's own row. */
  function KeysetRemainders(cursor: Key, points: seq<Key>, upper: Key): seq<Piece> {
    var pieces := KeysetPieces(cursor, points, upper);
    [Piece(pieces[0].bounds, cursor)] + pieces[1..]
  }

  function Remainders(b: Bounds, cursor: Key, split: Split): seq<Piece> {
    if cursor == [] then []
    else match b
      case RangeBounds(start, end) =>
        if cursor[0] < start || cursor[0] >= end then [] else NumericRemainders(cursor[0], end, split.pieces)
      case KeysetBounds(lower, upper) =>
        if cursor == upper then [] else KeysetRemainders(cursor, Points(cursor, upper, split), upper)
  }

  function CutAt(b: Bounds, cursor: Key): Bounds
    requires cursor != []
  {
    match b
    case RangeBounds(start, end) => RangeBounds(start, cursor[0])
    case KeysetBounds(lower, upper) => KeysetBounds(lower, cursor)
  }

  /** Without remainders the chunk may only be completed when its cursor is its end. */
  predicate AtEnd(b: Bounds, cursor: Key) {
    cursor != [] && match b
      case RangeBounds(start, end) => cursor[0] >= end
      case KeysetBounds(lower, upper) => cursor == upper
  }

  /** The completed part of a chunk: the keys up to the cursor of an integer range, and those
      before the cursor of a keyset chunk, whose own key begins the first remainder. */
  lemma CutMeaning(b: Bounds, cursor: Key, k: Key)
    requires cursor != [] && Admits(b, [], cursor)
    requires b.RangeBounds? ==> |k| == |cursor| == 1
    ensures b.RangeBounds? ==> (Admits(CutAt(b, cursor), [], k) <==> Admits(b, [], k) && !Less(cursor, k))
    ensures b.KeysetBounds? ==> (Admits(CutAt(b, cursor), [], k) <==> Admits(b, [], k) && Less(k, cursor))
  {
    match b
    case RangeBounds(start, end) => SingleLess(cursor, k);
    case KeysetBounds(lower, upper) =>
      if Less(k, cursor) && upper != [] {
        LessTransitive(k, cursor, upper);
      }
  }

  // ----- computed as the program does, in int64

  /** Int64 bounds of at most MAX64 keys, as planning makes them. */
  predicate Narrow(b: Bounds) {
    b.RangeBounds? ==> Int64(b.start) && Int64(b.end) && b.end - b.start < MAX64
  }

  lemma {:induction false} PlannedAreNarrow(chunks: seq<Chunk>, min: int, max: int, span: int, i: nat)
    requires Covers(chunks, min, max, span) && Int64(min) && Int64(max) && 0 < span <= MAX64 && i < |chunks|
    ensures Narrow(RangeBounds(chunks[i].start, chunks[i].end))
  {
    CoversStart(chunks, min, max, span, i);
    LastEnd(chunks, min, max, span, i);
    MulMonotone(0, i, span);
  }

  lemma {:induction false} RangePiecesInside(start: int, i: nat, pieces: nat, base: nat, extra: nat, k: nat)
    requires base > 0 && k < |RangePieces(start, i, pieces, base, extra)|
    ensures var b := RangePieces(start, i, pieces, base, extra)[k].bounds;
            b.RangeBounds? && start <= b.start <= b.end < start + RangeWidth(i, pieces, base, extra)
    decreases pieces - i
  {
    if i < pieces && k > 0 {
      RangePiecesInside(start + base + (if i < extra then 1 else 0), i + 1, pieces, base, extra, k - 1);
    }
  }

  lemma NumericInside(after: int, end: int, wanted: int, k: nat)
    requires after < end && k < |NumericRemainders(after, end, wanted)|
    ensures var b := NumericRemainders(after, end, wanted)[k].bounds;
            b.RangeBounds? && after < b.start <= b.end <= end
  {
    var remaining := end - after;
    var pieces := PieceCount(wanted, remaining);
    AtLeastOne(remaining, pieces);
    EvenSplitWidth(remaining, pieces);
    RangePiecesInside(after + 1, 0, pieces, remaining / pieces, remaining % pieces, k);
  }

  /** The parts of a narrow chunk are narrow, so its remainders can be cut again. */
  lemma RemaindersStayNarrow(b: Bounds, cursor: Key, split: Split, k: nat)
    requires Narrow(b) && k < |Remainders(b, cursor, split)|
    ensures Narrow(CutAt(b, cursor)) && Narrow(Remainders(b, cursor, split)[k].bounds)
  {
    match b
    case RangeBounds(start, end) =>
      NumericInside(cursor[0], end, split.pieces, k);
    case KeysetBounds(lower, upper) =>
      KeysetPiecesShape(cursor, Points(cursor, upper, split), upper);
  }

  /** A non-empty range that ends within int64 is computed without harm, and so is what
      comes after it. */
  lemma NextRange(x: int, size: nat, end: int)
    requires Int64(x) && Int64(end) && size > 0 && x + size - 1 <= end
    ensures Wrap(Wrap(x + size) - 1) == x + size - 1
    ensures Wrap(Wrap(Wrap(x + size) - 1) + 1) == Wrap(x + size)
  {
    WrapMeaning(x + size);
    WrapMeaning(Wrap(x + size) - 1);
  }

  method NumericYield(after: int, end: int, wanted: int, nextNo: int) returns (r: Result<seq<NumberedPiece>, YieldError>)
    requires Int64(after) && Int64(end) && 0 < end - after <= MAX64
    ensures r == Ok(NumberFrom(NumericRemainders(after, end, wanted), nextNo))
  {
    WrapMeaning(end - after);
    var remaining := Wrap(end - after);
    var pieces := PieceCount(wanted, remaining);
    EvenSplitWidth(remaining, pieces);
    AtLeastOne(remaining, pieces);
    r := CutRange(after, end, pieces, remaining / pieces, remaining % pieces, nextNo);
  }

  lemma NextNumbered(created: seq<NumberedPiece>, x: int, i: nat, pieces: nat, base: nat, extra: nat, no: int)
    requires i < pieces
    ensures var size := base + (if i < extra then 1 else 0);
            created + NumberFrom(RangePieces(x, i, pieces, base, extra), no) ==
            created + [NumberedPiece(no, Piece(RangeBounds(x, x + size - 1), []))]
            + NumberFrom(RangePieces(x + size, i + 1, pieces, base, extra), no + 1)
  {
    var size := base + (if i < extra then 1 else 0);
    assert RangePieces(x, i, pieces, base, extra)[1..] == RangePieces(x + size, i + 1, pieces, base, extra);
  }

  /** The first i ranges have been created; `start` is x in int64, where the next one starts. */
  ghost predicate Cutting(created: seq<NumberedPiece>, start: int, x: int, i: nat, pieces: nat, base: nat, extra: nat,
                          end: int, no: int, whole: seq<NumberedPiece>)
  {
    && MIN64 <= x && start == Wrap(x) && x + RangeWidth(i, pieces, base, extra) == end + 1
    && created + NumberFrom(RangePieces(x, i, pieces, base, extra), no + i) == whole
  }

  lemma CutNext(created: seq<NumberedPiece>, start: int, x: int, i: nat, pieces: nat, base: nat, extra: nat, size: nat,
                end: int, no: int, whole: seq<NumberedPiece>)
    requires Cutting(created, start, x, i, pieces, base, extra, end, no, whole) && i < pieces && base > 0 && Int64(end)
    requires size == base + (if i < extra then 1 else 0)
    ensures var last := Wrap(Wrap(start + size) - 1);
            Cutting(created + [NumberedPiece(no + i, Piece(RangeBounds(start, last), []))], Wrap(last + 1), x + size,
                    i + 1, pieces, base, extra, end, no, whole)
  {
    WrapMeaning(x);
    NextRange(x, size, end);
    NextNumbered(created, x, i, pieces, base, extra, no + i);
  }

  lemma CutDone(created: seq<NumberedPiece>, start: int, x: int, pieces: nat, base: nat, extra: nat,
                end: int, no: int, whole: seq<NumberedPiece>)
    requires Cutting(created, start, x, pieces, pieces, base, extra, end, no, whole)
    ensures start == Wrap(end + 1) && created == whole
  {
    assert created + [] == created;
  }

  method CutRange(after: int, end: int, pieces: nat, base: nat, extra: nat, nextNo: int)
    returns (r: Result<seq<NumberedPiece>, YieldError>)
    requires Int64(after) && Int64(end) && base > 0 && after + RangeWidth(0, pieces, base, extra) == end
    ensures r == Ok(NumberFrom(RangePieces(after + 1, 0, pieces, base, extra), nextNo))
  {
    var start, created := Wrap(after + 1), [];
    ghost var x, whole := after + 1, NumberFrom(RangePieces(after + 1, 0, pieces, base, extra), nextNo);
    for i := 0 to pieces
      invariant Cutting(created, start, x, i, pieces, base, extra, end, nextNo, whole)
    {
      var size := base;
      if i < extra {
        size := size + 1;
      }
      CutNext(created, start, x, i, pieces, base, extra, size, end, nextNo, whole);
      var last := Wrap(Wrap(start + size) - 1);
      created := created + [NumberedPiece(nextNo + i, Piece(RangeBounds(start, last), []))];
      start := Wrap(last + 1);
      x := x + size;
    }
    CutDone(created, start, x, pieces, base, extra, end, nextNo, whole);
    r := if start != Wrap(end + 1) then Err(Gap) else Ok(created);
  }

  method CollectPoints(cursor: Key, upper: Key, split: Split) returns (points: seq<Key>)
    ensures points == Points(cursor, upper, split)
  {
    var pieces := PieceCount(split.pieces, 0);
    points := [];
    if pieces > 1 {
      var seen := {cursor, upper};
      for i := 0 to |split.found|
        invariant |points| < pieces - 1
        invariant points + NewPoints(split.found[i..], seen, pieces - 1 - |points|) == Points(cursor, upper, split)
      {
        var b := split.found[i];
        assert split.found[i..][1..] == split.found[i + 1..];
        if b !in seen {
          seen := seen + {b};
          points := points + [b];
          if |points| >= pieces - 1 {
            break;
          }
        }
      }
    }
  }

  /** The intervals between consecutive points. */
  function Between(points: seq<Key>, no: int): seq<NumberedPiece>
    decreases |points|
  {
    if |points| < 2 then []
    else [NumberedPiece(no, Piece(KeysetBounds(points[0], points[1]), []))] + Between(points[1..], no + 1)
  }

  lemma {:induction false} BetweenIsPieces(lower: Key, points: seq<Key>, upper: Key, no: int)
    ensures Between([lower] + points + [upper], no) == NumberFrom(KeysetPieces(lower, points, upper), no)
    decreases |points|
  {
    var all := [lower] + points + [upper];
    NumberFirst(lower, points, upper, no);
    if points == [] {
      assert |all[1..]| == 1;
    } else {
      assert all[1..] == [points[0]] + points[1..] + [upper];
      BetweenIsPieces(points[0], points[1..], upper, no + 1);
    }
  }

  lemma RemaindersBetween(cursor: Key, points: seq<Key>, upper: Key, no: int)
    ensures var all := [cursor] + points + [upper];
            NumberFrom(KeysetRemainders(cursor, points, upper), no) ==
            [NumberedPiece(no, Piece(KeysetBounds(all[0], all[1]), cursor))] + Between(all[1..], no + 1)
  {
    var all, pieces := [cursor] + points + [upper], KeysetPieces(cursor, points, upper);
    BetweenIsPieces(cursor, points, upper, no);
    NumberFirst(cursor, points, upper, no);
    assert KeysetRemainders(cursor, points, upper)[1..] == pieces[1..];
    assert NumberFrom(pieces, no)[1..] == NumberFrom(pieces[1..], no + 1);
    assert Between(all, no)[1..] == Between(all[1..], no + 1);
    assert NumberFrom(pieces, no)[0].piece == pieces[0];
  }

  predicate Distinct(points: seq<Key>) {
    forall i, j | 0 <= i < j < |points| :: points[i] != points[j]
  }

  lemma DistinctCons(p: Key, points: seq<Key>)
    requires p !in points && Distinct(points)
    ensures Distinct([p] + points)
  {
    var all := [p] + points;
    forall i, j | 0 <= i < j < |all| ensures all[i] != all[j] {
      assert all[j] == points[j - 1];
    }
  }

  /** The points that are kept are new, so no interval is skipped as empty. */
  lemma {:induction false} PointsAreNew(found: seq<Key>, seen: set<Key>, room: int)
    ensures Distinct(NewPoints(found, seen, room))
    ensures forall p | p in NewPoints(found, seen, room) :: p !in seen && p in found
    decreases |found|
  {
    if found != [] && room > 0 {
      if found[0] in seen {
        PointsAreNew(found[1..], seen, room);
      } else {
        var tail := NewPoints(found[1..], seen + {found[0]}, room - 1);
        PointsAreNew(found[1..], seen + {found[0]}, room - 1);
        DistinctCons(found[0], tail);
      }
    }
  }

  /** No key is passed over while there is room: what is kept of the first found keys is the
      front of what is kept of all, and as long as it does not fill the room every found key
      is kept or was seen. */
  lemma {:induction false} PointsAreKept(found: seq<Key>, seen: set<Key>, room: nat, n: nat)
    requires n <= |found|
    ensures NewPoints(found[..n], seen, room) <= NewPoints(found, seen, room) && |NewPoints(found, seen, room)| <= room
    ensures |NewPoints(found[..n], seen, room)| == room
            || forall i | 0 <= i < n :: found[i] in seen || found[i] in NewPoints(found[..n], seen, room)
    decreases n
  {
    if n > 0 && room > 0 {
      var front, rest := found[..n], found[1..];
      assert front[1..] == rest[..n - 1];
      if found[0] in seen {
        PointsAreKept(rest, seen, room, n - 1);
      } else {
        PointsAreKept(rest, seen + {found[0]}, room - 1, n - 1);
      }
      assert forall i | 0 < i < n :: found[i] == rest[i - 1];
    } else {
      RoomBounds(found, seen, room);
    }
  }

  lemma {:induction false} RoomBounds(found: seq<Key>, seen: set<Key>, room: nat)
    ensures |NewPoints(found, seen, room)| <= room
    decreases |found|
  {
    if found != [] && room > 0 {
      if found[0] in seen {
        RoomBounds(found[1..], seen, room);
      } else {
        RoomBounds(found[1..], seen + {found[0]}, room - 1);
      }
    }
  }

  lemma NeighboursDiffer(cursor: Key, inner: seq<Key>, upper: Key, i: nat)
    requires cursor != upper && i <= |inner|
    requires cursor !in inner && upper !in inner && Distinct(inner)
    ensures var points := [cursor] + inner + [upper]; points[i] != points[i + 1]
  {
    var points := [cursor] + inner + [upper];
    assert points[i] == (if i == 0 then cursor else inner[i - 1]);
    assert points[i + 1] == (if i == |inner| then upper else inner[i]);
  }

  method KeysetYield(cursor: Key, upper: Key, split: Split, nextNo: int) returns (created: seq<NumberedPiece>)
    requires cursor != [] && cursor != upper
    ensures created == NumberFrom(KeysetRemainders(cursor, Points(cursor, upper, split), upper), nextNo)
  {
    var inner := CollectPoints(cursor, upper, split);
    PointsAreNew(split.found, {cursor, upper}, PieceCount(split.pieces, 0) - 1);
    RemaindersBetween(cursor, inner, upper, nextNo);
    var points := [cursor] + inner + [upper];
    created := [];
    var no := nextNo;
    ghost var whole := NumberFrom(KeysetRemainders(cursor, inner, upper), nextNo);
    for i := 0 to |points| - 1
      invariant no == nextNo + i && (i == 0 ==> created == [])
      invariant i > 0 ==> created + Between(points[i..], no) == whole
    {
      assert points[i..][1..] == points[i + 1..];
      NeighboursDiffer(cursor, inner, upper, i);
      if points[i] != points[i + 1] {
        var piece := Piece(KeysetBounds(points[i], points[i + 1]), if i == 0 then cursor else []);
        created := created + [NumberedPiece(no, piece)];
        no := no + 1;
      }
    }
    assert |points[|points| - 1..]| == 1;
  }

  /** The new chunks, numbered behind the last one. No int64 operation goes wrong and no
      gap is reported for a chunk of at most MAX64 keys, not even at the ends of int64. */
  method BuildYieldRemainders(b: Bounds, cursor: Key, split: Split, maxNo: int) returns (r: Result<seq<NumberedPiece>, YieldError>)
    requires Narrow(b)
    ensures r == Ok(NumberFrom(Remainders(b, cursor, split), maxNo + 1))
  {
    if cursor == [] {
      return Ok([]);
    }
    match b
    case RangeBounds(start, end) =>
      if cursor[0] < start || cursor[0] >= end {
        return Ok([]);
      }
      r := NumericYield(cursor[0], end, split.pieces, maxNo + 1);
    case KeysetBounds(lower, upper) =>
      if cursor == upper {
        return Ok([]);
      }
      var created := KeysetYield(cursor, upper, split, maxNo + 1);
      r := Ok(created);
  }

  // ----- what the remainders are

  /** Quotient-sized pieces, the first `remainder` of them one longer, have the whole width. */
  lemma EvenSplitWidth(remaining: nat, pieces: nat)
    requires pieces > 0
    ensures RangeWidth(0, pieces, remaining / pieces, remaining % pieces) == remaining
  {
    RangeWidthIs(0, pieces, remaining / pieces, remaining % pieces);
  }

  predicate OfSize(p: Piece, small: int) {
    p.bounds.RangeBounds? && small <= p.bounds.end - p.bounds.start + 1 <= small + 1
  }

  lemma {:induction false} RangePiecesSizes(start: int, i: nat, pieces: nat, base: nat, extra: nat)
    requires i <= pieces
    ensures var ps := RangePieces(start, i, pieces, base, extra);
            |ps| == pieces - i && forall j | 0 <= j < |ps| :: OfSize(ps[j], base)
    decreases pieces - i
  {
    if i < pieces {
      RangePiecesSizes(start + base + (if i < extra then 1 else 0), i + 1, pieces, base, extra);
    }
  }

  /** A yielded range is split into as many remainders as wanted, as far as there are keys;
      none is empty and their sizes differ by at most one. */
  lemma NumericRemaindersBalanced(after: int, end: int, wanted: int)
    requires after < end
    ensures var ps := NumericRemainders(after, end, wanted);
            && |ps| == (if wanted < 1 then 1 else if wanted > end - after then end - after else wanted)
            && (end - after) / |ps| >= 1 && forall j | 0 <= j < |ps| :: OfSize(ps[j], (end - after) / |ps|)
  {
    var remaining := end - after;
    var pieces := PieceCount(wanted, remaining);
    RangePiecesSizes(after + 1, 0, pieces, remaining / pieces, remaining % pieces);
    assert pieces <= remaining;
    AtLeastOne(remaining, pieces);
  }

  lemma AtLeastOne(n: nat, d: nat)
    requires 0 < d <= n
    ensures n / d >= 1
  {
  }

  lemma NumericRemaindersHitOnce(start: int, after: int, end: int, wanted: int, k: Key)
    requires start <= after < end && |k| == 1
    ensures Hits(NumericRemainders(after, end, wanted), k) ==
            if Admits(RangeBounds(start, end), [after], k) then 1 else 0
  {
    var remaining := end - after;
    var pieces := PieceCount(wanted, remaining);
    RangesHitOnce(after + 1, 0, pieces, remaining / pieces, remaining % pieces, k);
    EvenSplitWidth(remaining, pieces);
    SingleLess([after], k);
  }

  /** Resuming the first interval behind the cursor leaves out the cursor's own row. */
  lemma KeysetRemaindersHits(cursor: Key, points: seq<Key>, upper: Key, k: Key)
    requires cursor != []
    ensures var end := if points == [] then upper else points[0];
            Hits(KeysetRemainders(cursor, points, upper), k) ==
            Hits(KeysetPieces(cursor, points, upper), k) - if k == cursor && (end == [] || Less(k, end)) then 1 else 0
  {
    var all := KeysetPieces(cursor, points, upper);
    assert KeysetRemainders(cursor, points, upper)[1..] == all[1..];
    LessTotal(cursor, k);
    LessIrreflexive(k);
    if Less(cursor, k) {
      LessAsymmetric(cursor, k);
    }
  }

  /** Wherever a keyset chunk is cut, no row behind the cursor is lost. */
  lemma KeysetRemaindersReach(lower: Key, upper: Key, cursor: Key, points: seq<Key>, k: Key)
    requires cursor != [] && Admits(KeysetBounds(lower, upper), cursor, k)
    ensures Hits(KeysetRemainders(cursor, points, upper), k) >= 1
  {
    LessAsymmetric(cursor, k);
    LessIrreflexive(k);
    EveryKeyIsCovered(cursor, points, upper, k);
    KeysetRemaindersHits(cursor, points, upper, k);
  }

  ghost predicate OneRemainderPerKey(lower: Key, upper: Key, cursor: Key, points: seq<Key>) {
    forall k: Key | k != [] :: RemaindersRight(lower, upper, cursor, points, k)
  }

  ghost predicate RemaindersRight(lower: Key, upper: Key, cursor: Key, points: seq<Key>, k: Key) {
    Hits(KeysetRemainders(cursor, points, upper), k) == if Admits(KeysetBounds(lower, upper), cursor, k) then 1 else 0
  }

  lemma AscendingIsRight(lower: Key, upper: Key, cursor: Key, points: seq<Key>, k: Key)
    requires cursor != [] && NonEmptyKeys(points) && Ascending(cursor, points, upper) && k != []
    requires points == [] || points[0] != cursor
    ensures RemaindersRight(lower, upper, cursor, points, k)
  {
    OrderedIntervalsHitOnce(cursor, points, upper, k);
    KeysetRemaindersHits(cursor, points, upper, k);
    LessTotal(cursor, k);
    LessIrreflexive(k);
    if Less(cursor, k) {
      LessAsymmetric(cursor, k);
    }
    if points != [] {
      LessTotal(cursor, points[0]);
      AscendingStart(points[0], points[1..], upper);
      LessMixed(cursor, points[0], upper);
    }
  }

  /** Every key behind the cursor gets exactly one remainder, and no other key gets one,
      precisely when the points to cut at are sorted between the cursor and the end. */
  lemma OneRemainderIffSorted(lower: Key, upper: Key, cursor: Key, points: seq<Key>)
    requires cursor != [] && NonEmptyKeys(points) && (upper == [] || Less(cursor, upper))
    requires cursor !in points
    ensures OneRemainderPerKey(lower, upper, cursor, points) <==> Ascending(cursor, points, upper)
  {
    if Ascending(cursor, points, upper) {
      forall k: Key | k != [] ensures RemaindersRight(lower, upper, cursor, points, k) {
        AscendingIsRight(lower, upper, cursor, points, k);
      }
    } else {
      if upper != [] {
        LessAsymmetric(cursor, upper);
      }
      DisorderOverlaps(cursor, points, upper);
      var k :| Overlap(cursor, points, upper, k);
      KeysetRemaindersHits(cursor, points, upper, k);
      LessIrreflexive(k);
      LessTotal(cursor, k);
      if Less(cursor, k) {
        LessAsymmetric(cursor, k);
      }
      assert !RemaindersRight(lower, upper, cursor, points, k);
    }
  }

  /** Cutting a yielded chunk loses no row, whatever points it is cut at. */
  lemma RemaindersReach<T>(rows: seq<Keyed<T>>, b: Bounds, cursor: Key, split: Split)
    requires Remainders(b, cursor, split) != []
    requires b.RangeBounds? ==> |cursor| == 1 && forall i | 0 <= i < |rows| :: |rows[i].key| == 1
    ensures Reaches(rows, Remainders(b, cursor, split), Piece(b, cursor))
  {
    forall i | 0 <= i < |rows| && Admits(b, cursor, rows[i].key) ensures Hits(Remainders(b, cursor, split), rows[i].key) >= 1 {
      match b
      case RangeBounds(start, end) =>
        assert cursor == [cursor[0]];
        NumericRemaindersHitOnce(start, cursor[0], end, split.pieces, rows[i].key);
      case KeysetBounds(lower, upper) =>
        KeysetRemaindersReach(lower, upper, cursor, Points(cursor, upper, split), rows[i].key);
    }
  }

  lemma SplitIsRight(lower: Key, upper: Key, cursor: Key, split: Split, k: Key)
    requires cursor != [] && k != [] && NonEmptyKeys(split.found) && Ascending(cursor, Points(cursor, upper, split), upper)
    ensures RemaindersRight(lower, upper, cursor, Points(cursor, upper, split), k)
  {
    var points := Points(cursor, upper, split);
    PointsAreNew(split.found, {cursor, upper}, PieceCount(split.pieces, 0) - 1);
    forall i | 0 <= i < |points| ensures points[i] != [] {
      assert points[i] in split.found;
    }
    AscendingIsRight(lower, upper, cursor, points, k);
  }

  /** Cutting an integer range, or a keyset chunk at sorted points, gives every row that was
      left to exactly one remainder. */
  lemma RemaindersDivide<T>(rows: seq<Keyed<T>>, b: Bounds, cursor: Key, split: Split)
    requires Remainders(b, cursor, split) != []
    requires forall i | 0 <= i < |rows| :: rows[i].key != []
    requires b.RangeBounds? ==> |cursor| == 1 && forall i | 0 <= i < |rows| :: |rows[i].key| == 1
    requires b.KeysetBounds? ==> NonEmptyKeys(split.found) && Ascending(cursor, Points(cursor, b.upper, split), b.upper)
    ensures Divides(rows, Remainders(b, cursor, split), Piece(b, cursor))
  {
    forall i | 0 <= i < |rows|
      ensures Hits(Remainders(b, cursor, split), rows[i].key) == if Admits(b, cursor, rows[i].key) then 1 else 0
    {
      match b
      case RangeBounds(start, end) =>
        assert cursor == [cursor[0]];
        NumericRemaindersHitOnce(start, cursor[0], end, split.pieces, rows[i].key);
      case KeysetBounds(lower, upper) =>
        SplitIsRight(lower, upper, cursor, split, rows[i].key);
    }
  }

  /** The remainders keep the kind of bounds, and only the first keyset one has a cursor. */
  lemma RemainderShapes(b: Bounds, cursor: Key, split: Split)
    ensures var rest := Remainders(b, cursor, split);
            forall i | 0 <= i < |rest| ::
              && (rest[i].bounds.RangeBounds? <==> b.RangeBounds?)
              && (rest[i].cursor == []
                  || (i == 0 && b.KeysetBounds? && rest[i].cursor == cursor && rest[i].bounds.lower == cursor))
  {
    if Remainders(b, cursor, split) != [] {
      match b
      case RangeBounds(start, end) =>
        var remaining := end - cursor[0];
        var pieces := PieceCount(split.pieces, remaining);
        RangePiecesShape(cursor[0] + 1, 0, pieces, remaining / pieces, remaining % pieces);
      case KeysetBounds(lower, upper) =>
        KeysetPiecesShape(cursor, Points(cursor, upper, split), upper);
    }
  }

  lemma {:induction false} RangePiecesShape(start: int, i: nat, pieces: nat, base: nat, extra: nat)
    ensures forall j | 0 <= j < |RangePieces(start, i, pieces, base, extra)| ::
              RangePieces(start, i, pieces, base, extra)[j].bounds.RangeBounds?
              && RangePieces(start, i, pieces, base, extra)[j].cursor == []
    decreases pieces - i
  {
    if i < pieces {
      RangePiecesShape(start + base + (if i < extra then 1 else 0), i + 1, pieces, base, extra);
    }
  }

  lemma {:induction false} KeysetPiecesShape(lower: Key, points: seq<Key>, upper: Key)
    ensures var ps := KeysetPieces(lower, points, upper);
            && |ps| == |points| + 1
            && ps[0].bounds == KeysetBounds(lower, if points == [] then upper else points[0])
            && forall j | 0 <= j < |ps| :: ps[j].bounds.KeysetBounds? && ps[j].cursor == []
    decreases |points|
  {
    if points != [] {
      KeysetPiecesShape(points[0], points[1..], upper);
    }
  }
}
