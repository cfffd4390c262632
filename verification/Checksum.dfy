/** Table checksums computed page by page: an ordered one over a single range, and an
    order-independent one that adds row digests modulo 2^256. The hash functions and the
    per-column canonical form are arbitrary functions. */
module Checksums {
  import opened Wrappers
  import opened Keys
  import opened Reading
  import opened Partition
  import opened Encoding
  import opened Sorting
  import Transform
  import ChunkPlanner

  type Rows = seq<Keyed<Transform.Row>>

  type Column = Transform.Bytes -> Bytes

  datatype Failure = ColumnMismatch | NoPrimaryKeys | NoCursor | ReadFailed

  datatype Checksum = Checksum(rows: nat, hash: nat)

  const MOD: nat := 0x1_0000_0000_0000_0000_0000_0000_0000_0000_0000_0000_0000_0000_0000_0000_0000_0000

  // ----- what is hashed

  function CanonicalCell(col: Column, v: Transform.Value): Cell {
    match v
    case Null => Absent
    case Raw(s) => Present(col(s))
  }

  function CanonicalRow(cols: seq<Column>, row: Transform.Row): Cells
    decreases |row|
  {
    if row == [] || cols == [] then [] else [CanonicalCell(cols[0], row[0])] + CanonicalRow(cols[1..], row[1..])
  }

  function CanonicalRows(cols: seq<Column>, rows: Rows): seq<Cells> {
    if rows == [] then [] else [CanonicalRow(cols, rows[0].item)] + CanonicalRows(cols, rows[1..])
  }

  function Stream(cols: seq<Column>, rows: Rows): Bytes {
    StreamBytes(CanonicalRows(cols, rows))
  }

  /** The ordered checksum of rows: their number and the hash of their byte stream. */
  function Ordered(fnv: Bytes -> nat, cols: seq<Column>, rows: Rows): Checksum {
    Checksum(|rows|, fnv(Stream(cols, rows)))
  }

  function RowDigest(digest: Bytes -> nat, cols: seq<Column>, row: Keyed<Transform.Row>): nat {
    digest(RowBytes(CanonicalRow(cols, row.item)))
  }

  function DigestSum(digest: Bytes -> nat, cols: seq<Column>, rows: Rows): nat {
    if rows == [] then 0 else RowDigest(digest, cols, rows[0]) + DigestSum(digest, cols, rows[1..])
  }

  function Unordered(digest: Bytes -> nat, cols: seq<Column>, rows: Rows): Checksum {
    Checksum(|rows|, DigestSum(digest, cols, rows) % MOD)
  }

  ghost predicate Width(rows: Rows, n: nat) {
    forall i | 0 <= i < |rows| :: |rows[i].item| == n
  }

  lemma {:induction false} CanonicalRowAppend(cols: seq<Column>, row: Transform.Row, i: nat)
    requires |row| == |cols| && i < |row|
    ensures CanonicalRow(cols[..i + 1], row[..i + 1]) == CanonicalRow(cols[..i], row[..i]) + [CanonicalCell(cols[i], row[i])]
    decreases |row|
  {
    assert row[..i + 1][1..] == row[1..][..i] && cols[..i + 1][1..] == cols[1..][..i];
    if i > 0 {
      assert row[..i][1..] == row[1..][..i - 1] && cols[..i][1..] == cols[1..][..i - 1];
      CanonicalRowAppend(cols[1..], row[1..], i - 1);
    }
  }

  lemma {:induction false} CanonicalRowsConcat(cols: seq<Column>, a: Rows, b: Rows)
    ensures CanonicalRows(cols, a + b) == CanonicalRows(cols, a) + CanonicalRows(cols, b)
  {
    if a == [] {
      assert a + b == b;
    } else {
      assert (a + b)[1..] == a[1..] + b;
      CanonicalRowsConcat(cols, a[1..], b);
    }
  }

  lemma StreamOfConcat(cols: seq<Column>, a: Rows, b: Rows)
    ensures Stream(cols, a + b) == Stream(cols, a) + Stream(cols, b)
  {
    CanonicalRowsConcat(cols, a, b);
    StreamConcat(CanonicalRows(cols, a), CanonicalRows(cols, b));
  }

  lemma StreamOfOne(cols: seq<Column>, row: Keyed<Transform.Row>)
    ensures Stream(cols, [row]) == RowBytes(CanonicalRow(cols, row.item))
  {
    var cells := CanonicalRow(cols, row.item);
    assert CanonicalRows(cols, [row]) == [cells];
    assert StreamBytes([cells]) == RowBytes(cells) + [];
  }

  lemma {:induction false} DigestSumConcat(digest: Bytes -> nat, cols: seq<Column>, a: Rows, b: Rows)
    ensures DigestSum(digest, cols, a + b) == DigestSum(digest, cols, a) + DigestSum(digest, cols, b)
  {
    if a == [] {
      assert a + b == b;
    } else {
      assert (a + b)[1..] == a[1..] + b;
      DigestSumConcat(digest, cols, a[1..], b);
    }
  }

  // ----- reading page by page

  /** With p rows of the selection read, the next page is the next slice of it, and its
      last key is where the rest begins. */
  lemma NextSlice(table: Rows, b: Bounds, all: Rows, cursor: Key, p: nat, size: nat)
    requires Sorted(table) && forall i | 0 <= i < |table| :: table[i].key != []
    requires p <= |all| && Select(table, b, cursor) == all[p..] && size > 0
    ensures var page := NextPage(table, b, cursor, size);
            && |page| == Min(size, |all| - p) && page == all[p..p + |page|]
            && all[..p] + page == all[..p + |page|]
            && (forall i | 0 <= i < |page| :: page[i] in table)
            && (page != [] ==> Select(table, b, page[|page| - 1].key) == all[p + |page|..])
  {
    var page := NextPage(table, b, cursor, size);
    SelectMembers(table, b, cursor);
    assert forall i | 0 <= i < |page| :: page[i] == Select(table, b, cursor)[i];
    if page != [] {
      assert page[|page| - 1] in table;
      ResumeAt(table, b, cursor, |page| - 1);
    }
  }

  /** Feeds one value to a running hash. */
  method WriteValue(col: Column, v: Transform.Value, h: Bytes) returns (fed: Bytes)
    ensures fed == h + CellBytes(CanonicalCell(col, v))
  {
    if v.Null? {
      return h + [0xff];
    }
    fed := h + [0x00];
    var raw := col(v.bytes);
    fed := fed + LittleEndian(|raw|, 8);
    fed := fed + raw;
  }

  /** Feeds one canonical row and its end mark. */
  method WriteRow(cols: seq<Column>, row: Transform.Row, h: Bytes) returns (fed: Bytes)
    requires |row| == |cols|
    ensures fed == h + RowBytes(CanonicalRow(cols, row))
  {
    fed := h;
    for i := 0 to |row|
      invariant fed == h + CellsBytes(CanonicalRow(cols[..i], row[..i]))
    {
      NextCell(cols, row, i, h);
      fed := WriteValue(cols[i], row[i], fed);
    }
    assert cols[..|row|] == cols && row[..|row|] == row;
    fed := fed + [0xfe];
  }

  lemma NextCell(cols: seq<Column>, row: Transform.Row, i: nat, h: Bytes)
    requires |row| == |cols| && i < |row|
    ensures h + CellsBytes(CanonicalRow(cols[..i + 1], row[..i + 1]))
            == h + CellsBytes(CanonicalRow(cols[..i], row[..i])) + CellBytes(CanonicalCell(cols[i], row[i]))
  {
    var before, cell := CanonicalRow(cols[..i], row[..i]), CanonicalCell(cols[i], row[i]);
    CanonicalRowAppend(cols, row, i);
    CellsAppend(before, cell);
    Regroup(h, CellsBytes(before), CellBytes(cell));
  }

  method WritePage(cols: seq<Column>, page: Rows, h: Bytes) returns (fed: Bytes)
    requires Width(page, |cols|)
    ensures fed == h + Stream(cols, page)
  {
    fed := h;
    for i := 0 to |page|
      invariant fed == h + Stream(cols, page[..i])
    {
      NextRow(cols, page, i, h);
      fed := WriteRow(cols, page[i].item, fed);
    }
    assert page[..|page|] == page;
  }

  lemma Regroup(a: Bytes, b: Bytes, c: Bytes)
    ensures a + (b + c) == a + b + c
  {
  }

  lemma NextRow(cols: seq<Column>, page: Rows, i: nat, h: Bytes)
    requires i < |page|
    ensures h + Stream(cols, page[..i + 1]) == h + Stream(cols, page[..i]) + RowBytes(CanonicalRow(cols, page[i].item))
  {
    var before, row := Stream(cols, page[..i]), RowBytes(CanonicalRow(cols, page[i].item));
    assert page[..i + 1] == page[..i] + [page[i]];
    StreamOfConcat(cols, page[..i], [page[i]]);
    StreamOfOne(cols, page[i]);
    Regroup(h, before, row);
  }

  ghost predicate Readable(table: Rows, columns: nat) {
    Sorted(table) && Width(table, columns) && forall i | 0 <= i < |table| :: table[i].key != []
  }

  /** The first `rows` rows of the selection have been fed, and the cursor stands behind them. */
  ghost predicate Fed(table: Rows, b: Bounds, cols: seq<Column>, cursor: Key, rows: int, h: Bytes) {
    var all := Select(table, b, []);
    0 <= rows <= |all| && Select(table, b, cursor) == all[rows..] && h == Stream(cols, all[..rows])
  }

  lemma NothingFed(table: Rows, b: Bounds, cols: seq<Column>)
    ensures Fed(table, b, cols, [], 0, [])
  {
  }

  /** Feeding the next page; a short page was the last one. */
  lemma PageFed(table: Rows, b: Bounds, cols: seq<Column>, cursor: Key, rows: nat, h: Bytes, size: nat)
    requires Readable(table, |cols|) && Fed(table, b, cols, cursor, rows, h) && size > 0
    ensures var all, page := Select(table, b, []), NextPage(table, b, cursor, size);
            && Width(page, |cols|) && (forall i | 0 <= i < |page| :: page[i] in table) && |page| <= |all| - rows
            && (page != [] ==>
                  Fed(table, b, cols, page[|page| - 1].key, rows + |page|, h + Stream(cols, page)))
            && (|page| < size ==> h + Stream(cols, page) == Stream(cols, all) && rows + |page| == |all|)
  {
    var all, page := Select(table, b, []), NextPage(table, b, cursor, size);
    NextSlice(table, b, all, cursor, rows, size);
    StreamOfConcat(cols, all[..rows], page);
    if |page| < size {
      assert all[..rows] + page == all;
    }
  }

  ghost predicate IsKeyOf(table: Rows, k: Key) {
    exists i :: 0 <= i < |table| && table[i].key == k
  }

  ghost predicate Complete(table: Rows, b: Bounds, cols: seq<Column>, rows: nat, h: Bytes) {
    h == Stream(cols, Select(table, b, [])) && rows == |Select(table, b, [])|
  }

  function PageSize(batchRows: int): nat {
    if batchRows <= 0 then 1000 else batchRows
  }

  /** How many reads paging through n rows takes: a short page, perhaps empty, is the last. */
  function PageReads(n: nat, size: nat): nat
    requires size > 0
  {
    if n < size then 1 else 1 + PageReads(n - size, size)
  }

  /** One of the reads that paging through n rows makes fails; they are numbered from 0. */
  predicate Stopped(failAt: Option<nat>, n: nat, size: nat)
    requires size > 0
  {
    failAt.Some? && failAt.value < PageReads(n, size)
  }

  /** So many reads have been made for the first rows, and none of them failed. */
  ghost predicate CallsMade(all: nat, rows: int, calls: nat, size: nat, failAt: Option<nat>)
    requires size > 0
  {
    rows <= all && calls + PageReads(all - rows, size) == PageReads(all, size) && (failAt.Some? ==> calls <= failAt.value)
  }

  lemma NextCall(all: nat, rows: nat, calls: nat, size: nat, failAt: Option<nat>, n: nat)
    requires size > 0 && CallsMade(all, rows, calls, size, failAt) && failAt != Some(calls)
    requires n <= size && rows + n <= all && (n < size ==> rows + n == all)
    ensures n == size ==> CallsMade(all, rows + n, calls + 1, size, failAt)
    ensures n < size ==> !Stopped(failAt, all, size)
  {
  }

  /** Reads the next page and feeds it: how many rows it had, and the key of the last. */
  method FeedPage(table: Rows, b: Bounds, cols: seq<Column>, cursor: Key, h: Bytes, size: nat, ghost rows: nat)
    returns (n: nat, last: Key, fed: Bytes)
    requires Readable(table, |cols|) && Fed(table, b, cols, cursor, rows, h) && size > 0
    ensures n <= size && rows + n <= |Select(table, b, [])| && (n > 0 ==> IsKeyOf(table, last))
    ensures n > 0 ==> Fed(table, b, cols, last, rows + n, fed)
    ensures n < size ==> Complete(table, b, cols, rows + n, fed)
  {
    var page := NextPage(table, b, cursor, size);
    PageStep(table, b, cols, cursor, rows, h, size);
    fed := WritePage(cols, page, h);
    n, last := |page|, LastKey(page);
  }

  function LastKey(page: Rows): Key {
    if page == [] then [] else page[|page| - 1].key
  }

  lemma PageStep(table: Rows, b: Bounds, cols: seq<Column>, cursor: Key, rows: nat, h: Bytes, size: nat)
    requires Readable(table, |cols|) && Fed(table, b, cols, cursor, rows, h) && size > 0
    ensures var page := NextPage(table, b, cursor, size);
            && Width(page, |cols|) && |page| <= size && rows + |page| <= |Select(table, b, [])|
            && (page != [] ==>
                  IsKeyOf(table, LastKey(page)) && Fed(table, b, cols, LastKey(page), rows + |page|, h + Stream(cols, page)))
            && (|page| < size ==> Complete(table, b, cols, rows + |page|, h + Stream(cols, page)))
  {
    var page := NextPage(table, b, cursor, size);
    PageFed(table, b, cols, cursor, rows, h, size);
    assert page != [] ==> page[|page| - 1] in table;
  }

  ghost predicate SingleKeys(table: Rows) {
    forall i | 0 <= i < |table| :: |table[i].key| == 1
  }

  /** The cursor of a read behind an integer key. */
  function RangeCursor(hasAfter: bool, after: int): Key {
    if hasAfter then [after] else []
  }

  /** The same with integer keys. */
  method FeedRangePage(table: Rows, b: Bounds, cols: seq<Column>, after: int, hasAfter: bool, h: Bytes, size: nat, ghost rows: nat)
    returns (n: nat, last: int, fed: Bytes)
    requires Readable(table, |cols|) && SingleKeys(table)
    requires Fed(table, b, cols, RangeCursor(hasAfter, after), rows, h) && size > 0
    ensures n <= size && rows + n <= |Select(table, b, [])|
    ensures n > 0 ==> Fed(table, b, cols, RangeCursor(true, last), rows + n, fed)
    ensures n < size ==> Complete(table, b, cols, rows + n, fed)
  {
    var key;
    n, key, fed := FeedPage(table, b, cols, RangeCursor(hasAfter, after), h, size, rows);
    last := 0;
    if n > 0 {
      last := key[0];
      assert key == [last];
    }
  }

  /** The ordered checksum of an integer range: the same for every batch size, unless a read
      fails; `failAt` is the number of the first read that would. */
  method RangeCanonical(fnv: Bytes -> nat, table: Rows, start: int, end: int, readCols: nat, cols: seq<Column>, batchRows: int,
                        failAt: Option<nat>)
    returns (r: Result<Checksum, Failure>)
    requires Readable(table, readCols) && SingleKeys(table)
    ensures var all := Select(table, RangeBounds(start, end), []);
            r == if readCols != |cols| then Err(ColumnMismatch)
                 else if Stopped(failAt, |all|, PageSize(batchRows)) then Err(ReadFailed)
                 else Ok(Ordered(fnv, cols, all))
  {
    var size := batchRows;
    if size <= 0 {
      size := 1000;
    }
    if |cols| != readCols {
      return Err(ColumnMismatch);
    }
    var bounds := RangeBounds(start, end);
    var h: Bytes, rows: nat, after, hasAfter := [], 0, 0, false;
    ghost var all := |Select(table, bounds, [])|;
    NothingFed(table, bounds, cols);
    var calls: nat := 0;
    while true
      invariant Fed(table, bounds, cols, RangeCursor(hasAfter, after), rows, h) && CallsMade(all, rows, calls, size, failAt)
      decreases all - rows
    {
      if failAt == Some(calls) {
        return Err(ReadFailed);
      }
      var n, last, fed := FeedRangePage(table, bounds, cols, after, hasAfter, h, size, rows);
      NextCall(all, rows, calls, size, failAt, n);
      h, rows, calls := fed, rows + n, calls + 1;
      if n == 0 {
        break;
      }
      after := last;
      hasAfter := true;
      if n < size {
        break;
      }
    }
    return Ok(Checksum(rows, fnv(h)));
  }

  /** The same over [lower, upper) of any primary key. */
  method KeysetCanonicalBounded(fnv: Bytes -> nat, table: Rows, primaryKeys: nat, reportsKeys: bool,
                                readCols: nat, cols: seq<Column>, lower: Key, upper: Key, batchRows: int, failAt: Option<nat>)
    returns (r: Result<Checksum, Failure>)
    requires Readable(table, readCols)
    ensures primaryKeys == 0 ==> r == Err(NoPrimaryKeys)
    ensures primaryKeys > 0 && readCols != |cols| ==> r == Err(ColumnMismatch)
    ensures primaryKeys > 0 && readCols == |cols| ==>
              var all := Select(table, KeysetBounds(lower, upper), []);
              r == if failAt == Some(0) || (reportsKeys && Stopped(failAt, |all|, PageSize(batchRows))) then Err(ReadFailed)
                   else if all != [] && !reportsKeys then Err(NoCursor)
                   else Ok(Ordered(fnv, cols, all))
  {
    var size := batchRows;
    if size <= 0 {
      size := 1000;
    }
    if primaryKeys == 0 {
      return Err(NoPrimaryKeys);
    }
    if |cols| != readCols {
      return Err(ColumnMismatch);
    }
    var bounds := KeysetBounds(lower, upper);
    var h: Bytes, rows: nat, cursor: Key := [], 0, [];
    ghost var all := |Select(table, bounds, [])|;
    NothingFed(table, bounds, cols);
    var calls: nat := 0;
    while true
      invariant Fed(table, bounds, cols, cursor, rows, h) && CallsMade(all, rows, calls, size, failAt)
      invariant (calls > 0 ==> reportsKeys) && (calls == 0 ==> rows == 0)
      decreases all - rows
    {
      if failAt == Some(calls) {
        return Err(ReadFailed);
      }
      var n, last;
      n, last, h := FeedPage(table, bounds, cols, cursor, h, size, rows);
      NextCall(all, rows, calls, size, failAt, n);
      rows, calls := rows + n, calls + 1;
      if n == 0 {
        break;
      }
      if !reportsKeys {
        return Err(NoCursor);
      }
      cursor := last;
      if n < size {
        break;
      }
    }
    return Ok(Checksum(rows, fnv(h)));
  }

  // ----- the order-independent accumulator

  /** An immutable source slice: the rows of one partition, hash bucket or custom clause
      (or the whole table), read inside a piece's bounds from its cursor on. `failAt` is the
      number of the first of its reads that fails. */
  datatype Request = Request(slice: Rows, piece: Piece, reportsKeys: bool, failAt: Option<nat>)

  function Selected(q: Request): Rows {
    Select(q.slice, q.piece.bounds, q.piece.cursor)
  }

  function Collected(requests: seq<Request>): Rows {
    if requests == [] then [] else Selected(requests[0]) + Collected(requests[1..])
  }

  ghost predicate Servable(q: Request, columns: nat) {
    Readable(q.slice, columns)
    && (q.piece.bounds.RangeBounds? ==> SingleKeys(q.slice))
  }

  /** A connector whose keyset reads return rows but no cursor. */
  predicate Cursorless(q: Request) {
    q.piece.bounds.KeysetBounds? && !q.reportsKeys
  }

  /** Whether the request is answered, and if not, why. */
  function Outcome(q: Request, readCols: nat, cols: seq<Column>, size: nat): Result<(), Failure>
    requires size > 0
  {
    if readCols != |cols| then Err(ColumnMismatch)
    else if q.failAt == Some(0) || (!Cursorless(q) && Stopped(q.failAt, |Selected(q)|, size)) then Err(ReadFailed)
    else if Cursorless(q) && Selected(q) != [] then Err(NoCursor)
    else Ok(())
  }

  predicate Answers(q: Request, readCols: nat, cols: seq<Column>, size: nat)
    requires size > 0
  {
    Outcome(q, readCols, cols, size).Ok?
  }

  ghost predicate AllAnswer(requests: seq<Request>, readCols: nat, cols: seq<Column>, size: nat)
    requires size > 0
  {
    forall i | 0 <= i < |requests| :: Answers(requests[i], readCols, cols, size)
  }

  lemma AddModulo(a: nat, d: nat)
    ensures (a % MOD + d) % MOD == (a + d) % MOD
  {
  }

  /** The running sum after adding rows one by one. */
  function Accumulate(digest: Bytes -> nat, cols: seq<Column>, sum: nat, rows: Rows): nat
    decreases |rows|
  {
    if rows == [] then sum
    else Accumulate(digest, cols, (sum + RowDigest(digest, cols, rows[0])) % MOD, rows[1..])
  }

  lemma {:induction false} AccumulateIsSum(digest: Bytes -> nat, cols: seq<Column>, sum: nat, rows: Rows)
    requires sum < MOD
    ensures Accumulate(digest, cols, sum, rows) == (sum + DigestSum(digest, cols, rows)) % MOD
    decreases |rows|
  {
    if rows != [] {
      var d := RowDigest(digest, cols, rows[0]);
      AccumulateIsSum(digest, cols, (sum + d) % MOD, rows[1..]);
      AddModulo(sum + d, DigestSum(digest, cols, rows[1..]));
    }
  }

  lemma {:induction false} AccumulateConcat(digest: Bytes -> nat, cols: seq<Column>, sum: nat, a: Rows, b: Rows)
    ensures Accumulate(digest, cols, sum, a + b) == Accumulate(digest, cols, Accumulate(digest, cols, sum, a), b)
    decreases |a|
  {
    if a == [] {
      assert a + b == b;
    } else {
      assert (a + b)[1..] == a[1..] + b;
      AccumulateConcat(digest, cols, (sum + RowDigest(digest, cols, a[0])) % MOD, a[1..], b);
    }
  }

  lemma RowAdded(digest: Bytes -> nat, cols: seq<Column>, start: nat, page: Rows, i: nat)
    requires i < |page|
    ensures Accumulate(digest, cols, start, page[..i + 1])
            == (Accumulate(digest, cols, start, page[..i]) + RowDigest(digest, cols, page[i])) % MOD
  {
    AccumulateConcat(digest, cols, start, page[..i], [page[i]]);
    assert page[..i + 1] == page[..i] + [page[i]];
    assert [page[i]][1..] == [];
  }

  /** What a request has left to read from a cursor on. */
  function Rest(q: Request, cursor: Key): Rows {
    Select(q.slice, q.piece.bounds, cursor)
  }

  /** The next page is the front of what is left; its last key leads to the remainder. */
  lemma PageOfRest(q: Request, cursor: Key, size: nat, columns: nat)
    requires Readable(q.slice, columns) && size > 0
    ensures var page := NextPage(q.slice, q.piece.bounds, cursor, size);
            && Width(page, columns) && |page| == Min(size, |Rest(q, cursor)|)
            && (page != [] ==>
                  IsKeyOf(q.slice, page[|page| - 1].key) && Rest(q, cursor) == page + Rest(q, page[|page| - 1].key))
  {
    var rest, page := Rest(q, cursor), NextPage(q.slice, q.piece.bounds, cursor, size);
    assert rest[0..] == rest;
    NextSlice(q.slice, q.piece.bounds, rest, cursor, 0, size);
    PageWidth(q.slice, page, columns);
    if page != [] {
      assert page[|page| - 1] in q.slice;
      assert rest == rest[..|page|] + rest[|page|..];
    }
  }

  lemma PageWidth(table: Rows, page: Rows, n: nat)
    requires Width(table, n) && forall i | 0 <= i < |page| :: page[i] in table
    ensures Width(page, n)
  {
  }

  class UnorderedAccumulator {
    var rows: nat
    var sum: nat

    constructor ()
      ensures rows == 0 && sum == 0
    {
      rows, sum := 0, 0;
    }

    method AddRow(digest: Bytes -> nat, cols: seq<Column>, row: Keyed<Transform.Row>)
      requires |row.item| == |cols|
      modifies this
      ensures rows == old(rows) + 1 && sum == (old(sum) + RowDigest(digest, cols, row)) % MOD
    {
      var h := WriteRow(cols, row.item, []);
      assert h == RowBytes(CanonicalRow(cols, row.item));
      sum := sum + digest(h);
      sum := sum % MOD;
      rows := rows + 1;
    }

    method AddRows(digest: Bytes -> nat, cols: seq<Column>, page: Rows)
      requires Width(page, |cols|)
      modifies this
      ensures rows == old(rows) + |page| && sum == Accumulate(digest, cols, old(sum), page)
    {
      for i := 0 to |page|
        invariant rows == old(rows) + i && sum == Accumulate(digest, cols, old(sum), page[..i])
      {
        RowAdded(digest, cols, old(sum), page, i);
        AddRow(digest, cols, page[i]);
      }
      assert page[..|page|] == page;
    }

    /** Reads and adds the next page of a request. */
    method AddPage(digest: Bytes -> nat, q: Request, cols: seq<Column>, cursor: Key, size: nat) returns (n: nat, last: Key)
      requires Readable(q.slice, |cols|) && size > 0
      modifies this
      ensures n <= size && rows == old(rows) + n && (n < size ==> n == |Rest(q, cursor)|)
      ensures PageReads(|Rest(q, cursor)|, size) == if n < size then 1 else 1 + PageReads(|Rest(q, last)|, size)
      ensures if n == 0 then sum == old(sum)
              else && IsKeyOf(q.slice, last) && |Rest(q, last)| == |Rest(q, cursor)| - n
                   && Accumulate(digest, cols, sum, Rest(q, last)) == Accumulate(digest, cols, old(sum), Rest(q, cursor))
    {
      var page := NextPage(q.slice, q.piece.bounds, cursor, size);
      PageOfRest(q, cursor, size, |cols|);
      if page == [] {
        return 0, [];
      }
      assert |Rest(q, cursor)| == |page| + |Rest(q, page[|page| - 1].key)|;
      n, last := |page|, page[|page| - 1].key;
      AccumulateConcat(digest, cols, sum, page, Rest(q, last));
      AddRows(digest, cols, page);
    }

    /** Adds the rows of one request. A failing read ends it, and so does a connector that
        returns rows but no key cursor. */
    method AddRequest(digest: Bytes -> nat, q: Request, readCols: nat, cols: seq<Column>, batchRows: int)
      returns (r: Result<(), Failure>)
      requires Servable(q, readCols)
      modifies this
      ensures r == Outcome(q, readCols, cols, PageSize(batchRows))
      ensures readCols != |cols| ==> rows == old(rows) && sum == old(sum)
      ensures r.Ok? ==> rows == old(rows) + |Selected(q)| && sum == Accumulate(digest, cols, old(sum), Selected(q))
    {
      var size := batchRows;
      if size <= 0 {
        size := 1000;
      }
      if |cols| != readCols {
        return Err(ColumnMismatch);
      }
      var cursor := q.piece.cursor;
      var calls: nat := 0;
      while true
        invariant rows + |Rest(q, cursor)| == old(rows) + |Selected(q)|
        invariant Accumulate(digest, cols, sum, Rest(q, cursor)) == Accumulate(digest, cols, old(sum), Selected(q))
        invariant (calls > 0 ==> !Cursorless(q)) && (calls == 0 ==> cursor == q.piece.cursor)
        invariant calls + PageReads(|Rest(q, cursor)|, size) == PageReads(|Selected(q)|, size) && (q.failAt.Some? ==> calls <= q.failAt.value)
        decreases |Rest(q, cursor)|
      {
        if q.failAt == Some(calls) {
          return Err(ReadFailed);
        }
        var n, last := AddPage(digest, q, cols, cursor, size);
        calls := calls + 1;
        if n == 0 {
          break;
        }
        if q.piece.bounds.KeysetBounds? {
          if !q.reportsKeys {
            return Err(NoCursor);
          }
          cursor := last;
        } else {
          cursor := [last[0]];
          assert last == cursor;
        }
        if n < size {
          break;
        }
      }
      return Ok(());
    }
  }

  /** The first request that is not answered. */
  ghost predicate FirstFailure(requests: seq<Request>, readCols: nat, cols: seq<Column>, size: nat, i: nat, f: Failure)
    requires size > 0
  {
    i < |requests| && AllAnswer(requests[..i], readCols, cols, size) && Outcome(requests[i], readCols, cols, size) == Err(f)
  }

  /** The order-independent checksum of several slices: that of all their rows, whatever
      the batch size, or the failure of the first request that is not answered. */
  method UnorderedCanonicalRequests(digest: Bytes -> nat, requests: seq<Request>, readCols: nat, cols: seq<Column>, batchRows: int)
    returns (r: Result<Checksum, Failure>)
    requires forall i | 0 <= i < |requests| :: Servable(requests[i], readCols)
    ensures r.Ok? ==> AllAnswer(requests, readCols, cols, PageSize(batchRows)) && r.value == Unordered(digest, cols, Collected(requests))
    ensures r.Err? ==> exists i :: FirstFailure(requests, readCols, cols, PageSize(batchRows), i, r.error)
  {
    var acc := new UnorderedAccumulator();
    ghost var size := PageSize(batchRows);
    for i := 0 to |requests|
      invariant fresh(acc) && Added(digest, cols, requests, readCols, size, i, acc.rows, acc.sum)
    {
      var added := acc.AddRequest(digest, requests[i], readCols, cols, batchRows);
      if added.Err? {
        assert FirstFailure(requests, readCols, cols, size, i, added.error);
        return Err(added.error);
      }
      RequestAdded(digest, cols, requests, i);
      NextAdded(requests, readCols, cols, size, i);
    }
    assert requests[..|requests|] == requests;
    AccumulateIsSum(digest, cols, 0, Collected(requests));
    return Ok(Checksum(acc.rows, acc.sum));
  }

  /** The first i requests have been answered and added. */
  ghost predicate Added(digest: Bytes -> nat, cols: seq<Column>, requests: seq<Request>, readCols: nat, size: nat, i: nat,
                        rows: nat, sum: nat)
    requires size > 0 && i <= |requests|
  {
    && AllAnswer(requests[..i], readCols, cols, size)
    && rows == |Collected(requests[..i])| && sum == Accumulate(digest, cols, 0, Collected(requests[..i]))
  }

  lemma NextAdded(requests: seq<Request>, readCols: nat, cols: seq<Column>, size: nat, i: nat)
    requires size > 0 && i < |requests| && AllAnswer(requests[..i], readCols, cols, size)
    requires Answers(requests[i], readCols, cols, size)
    ensures AllAnswer(requests[..i + 1], readCols, cols, size)
  {
    var front, more := requests[..i], requests[..i + 1];
    assert forall k | 0 <= k < i :: more[k] == front[k];
  }

  lemma RequestAdded(digest: Bytes -> nat, cols: seq<Column>, requests: seq<Request>, i: nat)
    requires i < |requests|
    ensures |Collected(requests[..i + 1])| == |Collected(requests[..i])| + |Selected(requests[i])|
    ensures Accumulate(digest, cols, 0, Collected(requests[..i + 1]))
            == Accumulate(digest, cols, Accumulate(digest, cols, 0, Collected(requests[..i])), Selected(requests[i]))
  {
    CollectedAppend(requests, i);
    AccumulateConcat(digest, cols, 0, Collected(requests[..i]), Selected(requests[i]));
  }

  lemma {:induction false} CollectedAppend(requests: seq<Request>, i: nat)
    requires i < |requests|
    ensures Collected(requests[..i + 1]) == Collected(requests[..i]) + Selected(requests[i])
  {
    if i == 0 {
      assert requests[..1] == [requests[0]] && requests[..1][1..] == [];
    } else {
      assert requests[..i + 1][1..] == requests[1..][..i] && requests[..i][1..] == requests[1..][..i - 1];
      CollectedAppend(requests[1..], i - 1);
    }
  }

  // ----- independence of order and of cuts

  lemma {:induction false} SumOfPermutation(digest: Bytes -> nat, cols: seq<Column>, a: Rows, b: Rows)
    requires multiset(a) == multiset(b)
    ensures |a| == |b| && DigestSum(digest, cols, a) == DigestSum(digest, cols, b)
  {
    assert |a| == |multiset(a)| == |multiset(b)| == |b|;
    if a != [] {
      var i := TakeOut(a, b);
      SumOfPermutation(digest, cols, a[1..], b[..i] + b[i + 1..]);
      DigestSumConcat(digest, cols, b[..i], [b[i]] + b[i + 1..]);
      DigestSumConcat(digest, cols, b[..i], b[i + 1..]);
      assert ([b[i]] + b[i + 1..])[1..] == b[i + 1..];
    }
  }

  /** Requests that read the same rows the same number of times, in any order and with any
      cuts, have the same checksum. */
  lemma SameRowsSameChecksum(digest: Bytes -> nat, cols: seq<Column>, a: seq<Request>, b: seq<Request>)
    requires multiset(Collected(a)) == multiset(Collected(b))
    ensures Unordered(digest, cols, Collected(a)) == Unordered(digest, cols, Collected(b))
  {
    SumOfPermutation(digest, cols, Collected(a), Collected(b));
  }

  /** One changed row changes the checksum exactly when it changes the row's digest. */
  lemma OneChangedRowIsDetected(digest: Bytes -> nat, cols: seq<Column>, before: Rows, x: Keyed<Transform.Row>,
                                y: Keyed<Transform.Row>, behind: Rows)
    requires RowDigest(digest, cols, x) < MOD && RowDigest(digest, cols, y) < MOD
    ensures Unordered(digest, cols, before + [x] + behind) == Unordered(digest, cols, before + [y] + behind)
            <==> RowDigest(digest, cols, x) == RowDigest(digest, cols, y)
  {
    forall z ensures DigestSum(digest, cols, before + [z] + behind)
                     == DigestSum(digest, cols, before) + RowDigest(digest, cols, z) + DigestSum(digest, cols, behind)
    {
      DigestSumConcat(digest, cols, before + [z], behind);
      DigestSumConcat(digest, cols, before, [z]);
      assert [z][1..] == [];
    }
    ShiftedModulo(DigestSum(digest, cols, before) + DigestSum(digest, cols, behind),
                  RowDigest(digest, cols, x), RowDigest(digest, cols, y));
  }

  lemma ShiftedModulo(s: nat, x: nat, y: nat)
    requires x < MOD && y < MOD
    ensures (s + x) % MOD == (s + y) % MOD <==> x == y
  {
  }

  function Requests(table: Rows, pieces: seq<Piece>): seq<Request> {
    if pieces == [] then [] else [Request(table, pieces[0], true, None)] + Requests(table, pieces[1..])
  }

  lemma {:induction false} NothingCollected(pieces: seq<Piece>)
    ensures Collected(Requests([], pieces)) == []
  {
    if pieces != [] {
      NothingCollected(pieces[1..]);
    }
  }

  /** The first row is collected once for every piece that reads it. */
  lemma {:induction false} CollectedHead(table: Rows, pieces: seq<Piece>)
    requires table != [] && Hits(pieces, table[0].key) <= 1
    ensures multiset(Collected(Requests(table, pieces))) ==
            (if Hits(pieces, table[0].key) == 1 then multiset{table[0]} else multiset{})
            + multiset(Collected(Requests(table[1..], pieces)))
  {
    if pieces != [] {
      CollectedHead(table, pieces[1..]);
    }
  }

  /** A plan that gives every row to one piece collects the table. */
  lemma {:induction false} PlanCollectsTable(table: Rows, pieces: seq<Piece>)
    requires forall i | 0 <= i < |table| :: Hits(pieces, table[i].key) == 1
    ensures multiset(Collected(Requests(table, pieces))) == multiset(table)
  {
    if table == [] {
      NothingCollected(pieces);
    } else {
      var rest := table[1..];
      assert table == [table[0]] + rest;
      CollectedHead(table, pieces);
      PlanCollectsTable(rest, pieces) by {
        assert forall i | 0 <= i < |rest| :: rest[i] == table[i + 1];
      }
    }
  }

  /** Checksumming the chunks of a keyset plan in any order is checksumming the table. */
  lemma KeysetPlanChecksum(digest: Bytes -> nat, cols: seq<Column>, table: Rows, boundaries: seq<Key>, shuffled: seq<Request>)
    requires NonEmptyKeys(boundaries) && Ascending([], boundaries, [])
    requires multiset(shuffled) == multiset(Requests(table, KeysetPieces([], boundaries, [])))
    ensures Unordered(digest, cols, Collected(shuffled)) == Unordered(digest, cols, table)
  {
    var pieces := KeysetPieces([], boundaries, []);
    forall i | 0 <= i < |table| ensures Hits(pieces, table[i].key) == 1 {
      OrderedIntervalsHitOnce([], boundaries, [], table[i].key);
    }
    PlanCollectsTable(table, pieces);
    ShuffledCollects(shuffled, Requests(table, pieces));
    SumOfPermutation(digest, cols, Collected(shuffled), table);
  }

  /** The same for the chunks of an integer plan over the table's key range. */
  lemma RangePlanChecksum(digest: Bytes -> nat, cols: seq<Column>, table: Rows, chunks: seq<ChunkPlanner.Chunk>,
                          min: int, max: int, span: int, shuffled: seq<Request>)
    requires ChunkPlanner.Covers(chunks, min, max, span)
    requires forall i | 0 <= i < |table| :: |table[i].key| == 1 && min <= table[i].key[0] <= max
    requires multiset(shuffled) == multiset(Requests(table, ChunkPlanner.PiecesOf(chunks)))
    ensures Unordered(digest, cols, Collected(shuffled)) == Unordered(digest, cols, table)
  {
    var pieces := ChunkPlanner.PiecesOf(chunks);
    forall i | 0 <= i < |table| ensures Hits(pieces, table[i].key) == 1 {
      ChunkPlanner.CoversEachKeyOnce(chunks, min, max, span, table[i].key[0]);
      assert table[i].key == [table[i].key[0]];
    }
    PlanCollectsTable(table, pieces);
    ShuffledCollects(shuffled, Requests(table, pieces));
    SumOfPermutation(digest, cols, Collected(shuffled), table);
  }

  lemma {:induction false} CollectedConcat(a: seq<Request>, b: seq<Request>)
    ensures Collected(a + b) == Collected(a) + Collected(b)
  {
    if a == [] {
      assert a + b == b;
    } else {
      assert (a + b)[1..] == a[1..] + b;
      CollectedConcat(a[1..], b);
    }
  }

  lemma CollectedAround(requests: seq<Request>, i: nat)
    requires i < |requests|
    ensures multiset(Collected(requests[..i] + ([requests[i]] + requests[i + 1..])))
            == multiset(Selected(requests[i])) + multiset(Collected(requests[..i] + requests[i + 1..]))
  {
    var a, b := requests[..i], requests[i + 1..];
    CollectedConcat(a, [requests[i]] + b);
    CollectedConcat(a, b);
    assert ([requests[i]] + b)[1..] == b;
  }

  lemma {:induction false} ShuffledCollects(a: seq<Request>, b: seq<Request>)
    requires multiset(a) == multiset(b)
    ensures multiset(Collected(a)) == multiset(Collected(b))
  {
    assert |a| == |multiset(a)| == |multiset(b)| == |b|;
    if a != [] {
      var i := TakeOut(a, b);
      ShuffledCollects(a[1..], b[..i] + b[i + 1..]);
      CollectedAround(b, i);
    }
  }

  /** Two tables feed the ordered hash the same stream only if their canonical rows agree
      one by one. */
  lemma SameStreamSameRows(cols: seq<Column>, a: Rows, b: Rows)
    requires AllFit(CanonicalRows(cols, a)) && AllFit(CanonicalRows(cols, b))
    ensures Stream(cols, a) == Stream(cols, b) <==> CanonicalRows(cols, a) == CanonicalRows(cols, b)
  {
    if Stream(cols, a) == Stream(cols, b) {
      StreamsAreUnique(CanonicalRows(cols, a), CanonicalRows(cols, b));
    }
  }
}
