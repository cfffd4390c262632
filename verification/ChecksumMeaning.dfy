/** What equal checksums say about the rows themselves. */
module ChecksumMeaning {
  import opened Wrappers
  import opened Keys
  import opened Reading
  import opened Encoding
  import opened Checksums
  import Transform

  // ----- canonical rows

  /** A canonical row has a cell for every value: absent exactly for NULL, and otherwise the
      column's canonical form of the bytes. */
  lemma {:induction false} CanonicalRowMeaning(cols: seq<Column>, row: Transform.Row)
    requires |row| == |cols|
    ensures |CanonicalRow(cols, row)| == |row|
    ensures forall i | 0 <= i < |row| ::
              && (CanonicalRow(cols, row)[i] == Absent <==> row[i] == Transform.Null)
              && (row[i].Raw? ==> CanonicalRow(cols, row)[i] == Present(cols[i](row[i].bytes)))
    decreases |row|
  {
    if row != [] {
      CanonicalRowMeaning(cols[1..], row[1..]);
    }
  }

  /** Two values agree under a column: both NULL, or both of one canonical form. */
  predicate ValuesAgree(col: Column, a: Transform.Value, b: Transform.Value) {
    (a == Transform.Null && b == Transform.Null) || (a.Raw? && b.Raw? && col(a.bytes) == col(b.bytes))
  }

  ghost predicate RowAgrees(cols: seq<Column>, a: Transform.Row, b: Transform.Row)
    requires |a| == |b| == |cols|
  {
    forall i | 0 <= i < |cols| :: ValuesAgree(cols[i], a[i], b[i])
  }

  /** The tables agree row by row. */
  ghost predicate RowsAgree(cols: seq<Column>, a: Rows, b: Rows)
    requires Width(a, |cols|) && Width(b, |cols|)
  {
    |a| == |b| && forall i | 0 <= i < |a| :: RowAgrees(cols, a[i].item, b[i].item)
  }

  lemma CanonicalRowsAgreeAt(cols: seq<Column>, a: Transform.Row, b: Transform.Row)
    requires |a| == |b| == |cols|
    ensures CanonicalRow(cols, a) == CanonicalRow(cols, b) <==> RowAgrees(cols, a, b)
  {
    CanonicalRowMeaning(cols, a);
    CanonicalRowMeaning(cols, b);
    var x, y := CanonicalRow(cols, a), CanonicalRow(cols, b);
    forall i | 0 <= i < |cols| ensures x[i] == y[i] <==> ValuesAgree(cols[i], a[i], b[i]) {
    }
    if RowAgrees(cols, a, b) {
      assert forall i | 0 <= i < |cols| :: ValuesAgree(cols[i], a[i], b[i]);
    }
  }

  lemma {:induction false} CanonicalRowsAt(cols: seq<Column>, rows: Rows)
    ensures |CanonicalRows(cols, rows)| == |rows|
    ensures forall i | 0 <= i < |rows| :: CanonicalRows(cols, rows)[i] == CanonicalRow(cols, rows[i].item)
  {
    if rows != [] {
      CanonicalRowsAt(cols, rows[1..]);
    }
  }

  /** What is hashed is the same exactly for tables that agree row by row. */
  lemma CanonicalRowsAgreeIff(cols: seq<Column>, a: Rows, b: Rows)
    requires Width(a, |cols|) && Width(b, |cols|)
    ensures CanonicalRows(cols, a) == CanonicalRows(cols, b) <==> RowsAgree(cols, a, b)
  {
    CanonicalRowsAt(cols, a);
    CanonicalRowsAt(cols, b);
    var x, y := CanonicalRows(cols, a), CanonicalRows(cols, b);
    if |a| == |b| {
      forall i | 0 <= i < |a| ensures x[i] == y[i] <==> RowAgrees(cols, a[i].item, b[i].item) {
        CanonicalRowsAgreeAt(cols, a[i].item, b[i].item);
      }
      if RowsAgree(cols, a, b) {
        assert forall i | 0 <= i < |a| :: RowAgrees(cols, a[i].item, b[i].item);
      }
    }
  }

  /** No two values of a column have one canonical form. */
  ghost predicate TellsApart(col: Column) {
    forall x, y | col(x) == col(y) :: x == y
  }

  ghost predicate AllTellApart(cols: seq<Column>) {
    forall i | 0 <= i < |cols| :: TellsApart(cols[i])
  }

  /** For columns that tell their values apart, what is hashed is the same exactly for tables
      with equal rows. */
  lemma SameRowsIff(cols: seq<Column>, a: Rows, b: Rows)
    requires Width(a, |cols|) && Width(b, |cols|) && AllTellApart(cols)
    ensures CanonicalRows(cols, a) == CanonicalRows(cols, b)
            <==> |a| == |b| && forall i | 0 <= i < |a| :: a[i].item == b[i].item
  {
    CanonicalRowsAgreeIff(cols, a, b);
    if |a| == |b| {
      forall i | 0 <= i < |a| ensures RowAgrees(cols, a[i].item, b[i].item) <==> a[i].item == b[i].item {
        AgreeIffEqual(cols, a[i].item, b[i].item);
      }
      if RowsAgree(cols, a, b) {
        assert forall i | 0 <= i < |a| :: RowAgrees(cols, a[i].item, b[i].item);
      }
    }
  }

  lemma AgreeIffEqual(cols: seq<Column>, a: Transform.Row, b: Transform.Row)
    requires |a| == |b| == |cols| && AllTellApart(cols)
    ensures RowAgrees(cols, a, b) <==> a == b
  {
    forall i | 0 <= i < |cols| ensures ValuesAgree(cols[i], a[i], b[i]) <==> a[i] == b[i] {
      assert TellsApart(cols[i]);
    }
    if RowAgrees(cols, a, b) {
      assert forall i | 0 <= i < |cols| :: ValuesAgree(cols[i], a[i], b[i]);
    }
  }

  // ----- checksums

  /** Lengths of canonical forms are written in 64 bits. */
  ghost predicate Representable(cols: seq<Column>, rows: Rows)
    requires Width(rows, |cols|)
  {
    forall i, j | 0 <= i < |rows| && 0 <= j < |cols| && rows[i].item[j].Raw? ::
      |cols[j](rows[i].item[j].bytes)| < 0x1_0000_0000_0000_0000
  }

  lemma RepresentableFits(cols: seq<Column>, rows: Rows)
    requires Width(rows, |cols|) && Representable(cols, rows)
    ensures AllFit(CanonicalRows(cols, rows))
  {
    CanonicalRowsAt(cols, rows);
    forall i | 0 <= i < |rows| ensures Fits(CanonicalRows(cols, rows)[i]) {
      CanonicalRowMeaning(cols, rows[i].item);
    }
  }

  /** Two ordered checksums are equal exactly if the tables agree row by row, or have as many
      rows and different streams that the hash maps to one number. */
  lemma OrderedEqualIff(fnv: Bytes -> nat, cols: seq<Column>, a: Rows, b: Rows)
    requires Width(a, |cols|) && Width(b, |cols|) && Representable(cols, a) && Representable(cols, b)
    ensures RowsAgree(cols, a, b) <==> Stream(cols, a) == Stream(cols, b)
    ensures Ordered(fnv, cols, a) == Ordered(fnv, cols, b)
            <==> RowsAgree(cols, a, b)
                 || (|a| == |b| && Stream(cols, a) != Stream(cols, b) && fnv(Stream(cols, a)) == fnv(Stream(cols, b)))
  {
    RepresentableFits(cols, a);
    RepresentableFits(cols, b);
    SameStreamSameRows(cols, a, b);
    CanonicalRowsAgreeIff(cols, a, b);
  }

  lemma RowBytesAgreeIff(cols: seq<Column>, x: Keyed<Transform.Row>, y: Keyed<Transform.Row>)
    requires Width([x], |cols|) && Width([y], |cols|) && Representable(cols, [x]) && Representable(cols, [y])
    requires |x.item| == |y.item| == |cols|
    ensures RowBytes(CanonicalRow(cols, x.item)) == RowBytes(CanonicalRow(cols, y.item)) <==> RowAgrees(cols, x.item, y.item)
  {
    StreamOfOne(cols, x);
    StreamOfOne(cols, y);
    RepresentableFits(cols, [x]);
    RepresentableFits(cols, [y]);
    SameStreamSameRows(cols, [x], [y]);
    CanonicalRowsAt(cols, [x]);
    CanonicalRowsAt(cols, [y]);
    CanonicalRowsAgreeAt(cols, x.item, y.item);
  }

  /** A change to one row leaves the order-independent checksum alone exactly if no value of
      the row changes its canonical form, or the digest maps the two rows' bytes to one number. */
  lemma ChangedRowShowsIff(digest: Bytes -> nat, cols: seq<Column>, before: Rows, x: Keyed<Transform.Row>,
                           y: Keyed<Transform.Row>, behind: Rows)
    requires |x.item| == |y.item| == |cols|
    requires Width([x], |cols|) && Width([y], |cols|) && Representable(cols, [x]) && Representable(cols, [y])
    requires forall s :: digest(s) < 115792089237316195423570985008687907853269984665640564039457584007913129639936
    ensures var p, q := RowBytes(CanonicalRow(cols, x.item)), RowBytes(CanonicalRow(cols, y.item));
            Unordered(digest, cols, before + [x] + behind) == Unordered(digest, cols, before + [y] + behind)
            <==> RowAgrees(cols, x.item, y.item) || (p != q && digest(p) == digest(q))
  {
    OneChangedRowIsDetected(digest, cols, before, x, y, behind);
    RowBytesAgreeIff(cols, x, y);
  }

  /** The order-independent checksum is the number of rows and the sum of the digests of their
      bytes, modulo 2^256. */
  lemma UnorderedMeaning(digest: Bytes -> nat, cols: seq<Column>, rows: Rows, r: Keyed<Transform.Row>)
    ensures Unordered(digest, cols, rows)
            == Checksum(|rows|, DigestSum(digest, cols, rows)
                                % 115792089237316195423570985008687907853269984665640564039457584007913129639936)
    ensures DigestSum(digest, cols, []) == 0
    ensures DigestSum(digest, cols, rows + [r]) == DigestSum(digest, cols, rows) + digest(RowBytes(CanonicalRow(cols, r.item)))
  {
    DigestSumConcat(digest, cols, rows, [r]);
    assert [r][1..] == [];
  }

  /** Which requests are answered, and why the others are not. Only a connector that reports
      keys gets beyond the first page of a keyset read. */
  lemma RequestOutcome(q: Request, readCols: nat, cols: seq<Column>, batchRows: int)
    ensures var n, size := |Select(q.slice, q.piece.bounds, q.piece.cursor)|, if batchRows > 0 then batchRows else 1000;
            var cursorless := q.piece.bounds.KeysetBounds? && !q.reportsKeys;
            var fails := q.failAt.Some? && (if cursorless then q.failAt.value == 0 else q.failAt.value * size <= n);
            Outcome(q, readCols, cols, PageSize(batchRows))
            == if readCols != |cols| then Err(ColumnMismatch)
               else if fails then Err(ReadFailed)
               else if cursorless && n > 0 then Err(NoCursor)
               else Ok(())
  {
    if q.failAt.Some? {
      PagingMeaning(batchRows, |Select(q.slice, q.piece.bounds, q.piece.cursor)|, q.failAt.value);
    }
  }

  // ----- pages

  /** The read with number k is made, counted from 0, exactly if k full pages fit the rows. */
  lemma {:induction false} PageReadsMeaning(n: nat, size: nat, k: nat)
    requires size > 0
    ensures k < PageReads(n, size) <==> k * size <= n
    decreases k
  {
    if k > 0 {
      Multiples(k, size);
      if n >= size {
        PageReadsMeaning(n - size, size, k - 1);
      }
    }
  }

  lemma Multiples(k: nat, size: nat)
    requires k > 0
    ensures k * size == (k - 1) * size + size && (k - 1) * size >= 0
  {
  }

  /** A page has 1000 rows unless the caller says otherwise, and a read that fails is noticed
      exactly if the pages before it can be full. */
  lemma PagingMeaning(batchRows: int, n: nat, failAt: nat)
    ensures PageSize(batchRows) == if batchRows > 0 then batchRows else 1000
    ensures Stopped(Some(failAt), n, PageSize(batchRows)) <==> failAt * PageSize(batchRows) <= n
    ensures !Stopped(None, n, PageSize(batchRows))
  {
    PageReadsMeaning(n, PageSize(batchRows), failAt);
  }
}
