/** Dividing the rows behind a cursor among several chunks. A division is right when
    every key has exactly one chunk that still has to read it. */
module Partition {
  import opened Keys
  import opened Reading

  /** A chunk as far as reading goes: immutable bounds and the cursor it resumes from. */
  datatype Piece = Piece(bounds: Bounds, cursor: Key)

  /** How many pieces still have to read key k. */
  function Hits(pieces: seq<Piece>, k: Key): nat {
    if pieces == [] then 0
    else (if Admits(pieces[0].bounds, pieces[0].cursor, k) then 1 else 0) + Hits(pieces[1..], k)
  }

  function Total<T>(rows: seq<Keyed<T>>, pieces: seq<Piece>): nat {
    if pieces == [] then 0
    else |Select(rows, pieces[0].bounds, pieces[0].cursor)| + Total(rows, pieces[1..])
  }

  /** Each row that the piece `whole` has to read belongs to one of the pieces, and no other row does. */
  ghost predicate Divides<T>(rows: seq<Keyed<T>>, pieces: seq<Piece>, whole: Piece) {
    forall i | 0 <= i < |rows| ::
      Hits(pieces, rows[i].key) == if Admits(whole.bounds, whole.cursor, rows[i].key) then 1 else 0
  }

  lemma {:induction false} TotalOfHead<T>(rows: seq<Keyed<T>>, pieces: seq<Piece>)
    requires rows != []
    ensures Total(rows, pieces) == Hits(pieces, rows[0].key) + Total(rows[1..], pieces)
  {
    if pieces != [] {
      TotalOfHead(rows, pieces[1..]);
    }
  }

  /** Each row that the piece `whole` has to read belongs to at least one of the pieces. */
  ghost predicate Reaches<T>(rows: seq<Keyed<T>>, pieces: seq<Piece>, whole: Piece) {
    forall i | 0 <= i < |rows| && Admits(whole.bounds, whole.cursor, rows[i].key) :: Hits(pieces, rows[i].key) >= 1
  }

  /** Pieces that reach every row read at least as many rows as the whole, and as many
      exactly if they divide it. */
  lemma {:induction false} DivisionKeepsCount<T>(rows: seq<Keyed<T>>, pieces: seq<Piece>, whole: Piece)
    requires Reaches(rows, pieces, whole)
    ensures Total(rows, pieces) >= |Select(rows, whole.bounds, whole.cursor)|
    ensures Total(rows, pieces) == |Select(rows, whole.bounds, whole.cursor)| <==> Divides(rows, pieces, whole)
  {
    if rows == [] {
      TotalOfNothing(rows, pieces);
    } else {
      TotalOfHead(rows, pieces);
      assert forall i | 0 <= i < |rows[1..]| :: rows[1..][i] == rows[i + 1];
      DivisionKeepsCount(rows[1..], pieces, whole);
      DividesHead(rows, pieces, whole);
    }
  }

  lemma DividesHead<T>(rows: seq<Keyed<T>>, pieces: seq<Piece>, whole: Piece)
    requires rows != []
    ensures Divides(rows, pieces, whole) <==>
              && Hits(pieces, rows[0].key) == (if Admits(whole.bounds, whole.cursor, rows[0].key) then 1 else 0)
              && Divides(rows[1..], pieces, whole)
  {
    assert forall i | 0 <= i < |rows[1..]| :: rows[1..][i] == rows[i + 1];
    if Divides(rows[1..], pieces, whole) {
      assert forall i | 1 <= i < |rows| :: rows[i] == rows[1..][i - 1];
    }
  }

  lemma {:induction false} TotalOfNothing<T>(rows: seq<Keyed<T>>, pieces: seq<Piece>)
    requires rows == []
    ensures Total(rows, pieces) == 0
  {
    if pieces != [] {
      TotalOfNothing(rows, pieces[1..]);
    }
  }

  lemma {:induction false} HitExists(pieces: seq<Piece>, k: Key)
    ensures Hits(pieces, k) > 0 <==>
            exists i :: 0 <= i < |pieces| && Admits(pieces[i].bounds, pieces[i].cursor, k)
  {
    if pieces != [] {
      HitExists(pieces[1..], k);
      if Hits(pieces[1..], k) > 0 {
        var i :| 0 <= i < |pieces[1..]| && Admits(pieces[1..][i].bounds, pieces[1..][i].cursor, k);
        assert pieces[i + 1] == pieces[1..][i];
      }
      if i :| 0 <= i < |pieces| && Admits(pieces[i].bounds, pieces[i].cursor, k) {
        if i > 0 {
          assert pieces[1..][i - 1] == pieces[i];
        }
      }
    }
  }

  // ----- consecutive keyset intervals

  /** [lower, b0), [b0, b1), ..., [bn, upper); an empty upper bound is open. */
  function KeysetPieces(lower: Key, boundaries: seq<Key>, upper: Key): seq<Piece>
    decreases |boundaries|
  {
    if boundaries == [] then [Piece(KeysetBounds(lower, upper), [])]
    else [Piece(KeysetBounds(lower, boundaries[0]), [])] + KeysetPieces(boundaries[0], boundaries[1..], upper)
  }

  /** A chunk with its number. */
  datatype NumberedPiece = NumberedPiece(no: int, piece: Piece)

  function NumberFrom(pieces: seq<Piece>, no: int): seq<NumberedPiece>
    decreases |pieces|
  {
    if pieces == [] then [] else [NumberedPiece(no, pieces[0])] + NumberFrom(pieces[1..], no + 1)
  }

  /** The pieces in order, numbered from `no` on. */
  lemma {:induction false} NumberedInOrder(pieces: seq<Piece>, no: int)
    ensures |NumberFrom(pieces, no)| == |pieces|
    ensures forall i | 0 <= i < |pieces| :: NumberFrom(pieces, no)[i] == NumberedPiece(no + i, pieces[i])
    decreases |pieces|
  {
    if pieces != [] {
      NumberedInOrder(pieces[1..], no + 1);
    }
  }

  /** The first interval and the others. */
  lemma NumberFirst(lower: Key, boundaries: seq<Key>, upper: Key, no: int)
    ensures NumberFrom(KeysetPieces(lower, boundaries, upper), no) ==
            [NumberedPiece(no, Piece(KeysetBounds(lower, if boundaries == [] then upper else boundaries[0]), []))]
            + if boundaries == [] then [] else NumberFrom(KeysetPieces(boundaries[0], boundaries[1..], upper), no + 1)
  {
    var all := KeysetPieces(lower, boundaries, upper);
    if boundaries == [] {
      assert all[1..] == [];
    } else {
      assert all[1..] == KeysetPieces(boundaries[0], boundaries[1..], upper);
    }
  }

  predicate Inside(lower: Key, upper: Key, k: Key) {
    !Less(k, lower) && (upper == [] || Less(k, upper))
  }

  ghost predicate NonEmptyKeys(boundaries: seq<Key>) {
    forall i | 0 <= i < |boundaries| :: boundaries[i] != []
  }

  /** lower <= b0 <= b1 <= ... <= upper. */
  predicate Ascending(lower: Key, boundaries: seq<Key>, upper: Key)
    decreases |boundaries|
  {
    if boundaries == [] then upper == [] || !Less(upper, lower)
    else !Less(boundaries[0], lower) && Ascending(boundaries[0], boundaries[1..], upper)
  }

  lemma {:induction false} AscendingStart(lower: Key, boundaries: seq<Key>, upper: Key)
    requires Ascending(lower, boundaries, upper)
    ensures upper == [] || !Less(upper, lower)
    decreases |boundaries|
  {
    if boundaries != [] {
      AscendingStart(boundaries[0], boundaries[1..], upper);
      LessMixed(lower, boundaries[0], upper);
    }
  }

  /** With ordered boundaries every key between the ends is read by exactly one interval. */
  lemma {:induction false} OrderedIntervalsHitOnce(lower: Key, boundaries: seq<Key>, upper: Key, k: Key)
    requires NonEmptyKeys(boundaries) && Ascending(lower, boundaries, upper)
    ensures Hits(KeysetPieces(lower, boundaries, upper), k) == if Inside(lower, upper, k) then 1 else 0
    decreases |boundaries|
  {
    if boundaries == [] {
      assert KeysetPieces(lower, boundaries, upper)[1..] == [];
    } else {
      var b := boundaries[0];
      assert forall i | 0 <= i < |boundaries[1..]| :: boundaries[1..][i] == boundaries[i + 1];
      OrderedIntervalsHitOnce(b, boundaries[1..], upper, k);
      assert KeysetPieces(lower, boundaries, upper)[1..] == KeysetPieces(b, boundaries[1..], upper);
      AscendingStart(b, boundaries[1..], upper);
      LessMixed(lower, b, k);
      LessMixed(k, b, upper);
      LessAsymmetricAll(k, b, lower);
    }
  }

  /** In whatever order the boundaries are, no key between the ends is lost. */
  lemma {:induction false} EveryKeyIsCovered(lower: Key, boundaries: seq<Key>, upper: Key, k: Key)
    requires Inside(lower, upper, k)
    ensures Hits(KeysetPieces(lower, boundaries, upper), k) >= 1
    decreases |boundaries|
  {
    var all := KeysetPieces(lower, boundaries, upper);
    if boundaries != [] {
      assert all[1..] == KeysetPieces(boundaries[0], boundaries[1..], upper);
      if !Less(k, boundaries[0]) {
        EveryKeyIsCovered(boundaries[0], boundaries[1..], upper, k);
      }
    }
  }

  /** A key that out-of-order boundaries give to two intervals, or to one although it is
      not between the ends. */
  ghost predicate Overlap(lower: Key, boundaries: seq<Key>, upper: Key, k: Key) {
    var hits := Hits(KeysetPieces(lower, boundaries, upper), k);
    k != [] && (hits >= 2 || (hits >= 1 && !Inside(lower, upper, k)))
  }

  lemma {:induction false} DisorderOverlaps(lower: Key, boundaries: seq<Key>, upper: Key)
    requires NonEmptyKeys(boundaries) && (upper == [] || !Less(upper, lower)) && !Ascending(lower, boundaries, upper)
    ensures exists k :: Overlap(lower, boundaries, upper, k)
    decreases |boundaries|
  {
    var b, rest := boundaries[0], boundaries[1..];
    assert KeysetPieces(lower, boundaries, upper)[1..] == KeysetPieces(b, rest, upper);
    assert forall i | 0 <= i < |rest| :: rest[i] == boundaries[i + 1];
    if Less(b, lower) {
      LessIrreflexive(b);
      LessMixed(b, lower, upper);
      EveryKeyIsCovered(b, rest, upper, b);
      assert Overlap(lower, boundaries, upper, b);
    } else if upper != [] && Less(upper, b) {
      LessIrreflexive(upper);
      assert Admits(KeysetBounds(lower, b), [], upper);
      assert Overlap(lower, boundaries, upper, upper);
    } else {
      DisorderOverlaps(b, rest, upper);
      var k :| Overlap(b, rest, upper, k);
      OverlapBefore(lower, boundaries, upper, k);
    }
  }

  /** What overlaps behind the first boundary overlaps. */
  lemma OverlapBefore(lower: Key, boundaries: seq<Key>, upper: Key, k: Key)
    requires boundaries != [] && Overlap(boundaries[0], boundaries[1..], upper, k)
    ensures Overlap(lower, boundaries, upper, k)
  {
    assert KeysetPieces(lower, boundaries, upper)[1..] == KeysetPieces(boundaries[0], boundaries[1..], upper);
  }

  lemma LessAsymmetricAll(k: Key, b: Key, lower: Key)
    ensures Less(k, b) ==> !Less(b, k)
    ensures Less(k, lower) && !Less(b, lower) ==> Less(k, b)
  {
    if Less(k, b) { LessAsymmetric(k, b); }
    LessMixed(k, lower, b);
  }

  // ----- consecutive integer ranges

  /** `pieces - i` consecutive ranges from start; the first `extra - i` are one key longer. */
  function RangePieces(start: int, i: nat, pieces: nat, base: nat, extra: nat): seq<Piece>
    decreases pieces - i
  {
    if i >= pieces then []
    else
      var size := base + (if i < extra then 1 else 0);
      [Piece(RangeBounds(start, start + size - 1), [])] + RangePieces(start + size, i + 1, pieces, base, extra)
  }

  function RangeWidth(i: nat, pieces: nat, base: nat, extra: nat): nat
    decreases pieces - i
  {
    if i >= pieces then 0
    else base + (if i < extra then 1 else 0) + RangeWidth(i + 1, pieces, base, extra)
  }

  lemma {:induction false} RangeWidthIs(i: nat, pieces: nat, base: nat, extra: nat)
    requires i <= pieces && extra <= pieces
    ensures RangeWidth(i, pieces, base, extra) == (pieces - i) * base + (if i < extra then extra - i else 0)
    decreases pieces - i
  {
    if i < pieces {
      RangeWidthIs(i + 1, pieces, base, extra);
      assert (pieces - i) * base == base + (pieces - (i + 1)) * base;
    }
  }

  lemma {:induction false} RangesHitOnce(start: int, i: nat, pieces: nat, base: nat, extra: nat, k: Key)
    requires |k| == 1
    ensures Hits(RangePieces(start, i, pieces, base, extra), k) ==
            if start <= k[0] < start + RangeWidth(i, pieces, base, extra) then 1 else 0
    decreases pieces - i
  {
    if i < pieces {
      var size := base + (if i < extra then 1 else 0);
      RangesHitOnce(start + size, i + 1, pieces, base, extra, k);
      var all := RangePieces(start, i, pieces, base, extra);
      assert all[1..] == RangePieces(start + size, i + 1, pieces, base, extra);
    }
  }
}
