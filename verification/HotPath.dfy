/** The reference meaning of "next page after a cursor", computed without an index: keep
    the chunks behind the cursor, sort them, and cut. */
module HotPath {
  import opened Keys
  import opened Reading
  import opened Sorting

  /** A chunk of some table, keyed by its number followed by the bytes of its id. */
  datatype Listed<T> = Listed(table: Key, no: int, id: Key, item: T)

  const DEFAULT_LIMIT: nat := 512

  function ChunkKey(no: int, id: Key): Key {
    [no] + id
  }

  function KeyedChunk<T>(c: Listed<T>): Keyed<Listed<T>> {
    Keyed(ChunkKey(c.no, c.id), c)
  }

  function OfTable<T>(chunks: seq<Listed<T>>, table: Key): seq<Keyed<Listed<T>>> {
    if chunks == [] then []
    else if chunks[0].table == table then [KeyedChunk(chunks[0])] + OfTable(chunks[1..], table)
    else OfTable(chunks[1..], table)
  }

  /** The order the program sorts by is the order of these keys. */
  lemma ChunkKeyOrder(a: int, x: Key, b: int, y: Key)
    ensures Less(ChunkKey(a, x), ChunkKey(b, y)) <==> a < b || (a == b && Less(x, y))
  {
    assert ([a] + x)[1..] == x && ([b] + y)[1..] == y;
  }

  const UNBOUNDED := KeysetBounds([], [])

  lemma {:induction false} SelectConcat<T>(s: seq<Keyed<T>>, t: seq<Keyed<T>>, b: Bounds, cursor: Key)
    ensures Select(s + t, b, cursor) == Select(s, b, cursor) + Select(t, b, cursor)
  {
    if s == [] {
      assert s + t == t;
    } else {
      assert (s + t)[1..] == s[1..] + t;
      SelectConcat(s[1..], t, b, cursor);
    }
  }

  lemma {:induction false} SelectRearranged<T>(s: seq<Keyed<T>>, t: seq<Keyed<T>>, b: Bounds, cursor: Key)
    requires multiset(s) == multiset(t)
    ensures multiset(Select(s, b, cursor)) == multiset(Select(t, b, cursor))
  {
    assert |s| == |multiset(s)| == |multiset(t)| == |t|;
    if s != [] {
      var i := TakeOut(s, t);
      var front, back := t[..i], t[i + 1..];
      SelectRearranged(s[1..], front + back, b, cursor);
      SelectConcat(front, back, b, cursor);
      SelectConcat(front, [t[i]] + back, b, cursor);
      assert ([t[i]] + back)[1..] == back;
    }
  }

  /** Filtering commutes with sorting. */
  lemma SelectOfSorted<T>(rows: seq<Keyed<T>>, b: Bounds, cursor: Key)
    requires DistinctKeys(rows)
    ensures SortByKey(Select(rows, b, cursor)) == Select(SortByKey(rows), b, cursor)
  {
    var part := Select(rows, b, cursor);
    SortKeepsMembers(rows);
    SortSorts(rows);
    SelectSorted(SortByKey(rows), b, cursor);
    SelectDistinct(rows, b, cursor);
    SortKeepsMembers(part);
    SortSorts(part);
    SelectRearranged(rows, SortByKey(rows), b, cursor);
    SortedIsUnique(SortByKey(part), Select(SortByKey(rows), b, cursor));
  }

  lemma {:induction false} SelectDistinct<T>(rows: seq<Keyed<T>>, b: Bounds, cursor: Key)
    requires DistinctKeys(rows)
    ensures DistinctKeys(Select(rows, b, cursor))
  {
    if rows != [] {
      var rest := Select(rows[1..], b, cursor);
      assert DistinctKeys(rows[1..]);
      SelectDistinct(rows[1..], b, cursor);
      SelectMembers(rows[1..], b, cursor);
      forall j | 0 <= j < |rest| ensures rest[j].key != rows[0].key {
        assert rest[j] in rows[1..];
      }
    }
  }

  lemma {:induction false} OfTableAppend<T>(chunks: seq<Listed<T>>, c: Listed<T>, table: Key)
    ensures OfTable(chunks + [c], table) == OfTable(chunks, table) + (if c.table == table then [KeyedChunk(c)] else [])
  {
    if chunks == [] {
      assert chunks + [c] == [c];
    } else {
      assert (chunks + [c])[1..] == chunks[1..] + [c];
      OfTableAppend(chunks[1..], c, table);
    }
  }

  lemma KeepNext<T>(chunks: seq<Listed<T>>, i: nat, table: Key, afterNo: int, afterID: Key)
    requires i < |chunks|
    ensures var cursor := ChunkKey(afterNo, afterID);
            Select(OfTable(chunks[..i + 1], table), UNBOUNDED, cursor) ==
            Select(OfTable(chunks[..i], table), UNBOUNDED, cursor)
            + (if chunks[i].table == table && (afterNo < chunks[i].no || (afterNo == chunks[i].no && Less(afterID, chunks[i].id)))
               then [KeyedChunk(chunks[i])] else [])
  {
    var before, c, cursor := OfTable(chunks[..i], table), chunks[i], ChunkKey(afterNo, afterID);
    assert chunks[..i + 1] == chunks[..i] + [c];
    OfTableAppend(chunks[..i], c, table);
    ChunkKeyOrder(afterNo, afterID, c.no, c.id);
    if c.table == table {
      SelectConcat(before, [KeyedChunk(c)], UNBOUNDED, cursor);
      assert Admits(UNBOUNDED, cursor, KeyedChunk(c).key) <==> Less(cursor, ChunkKey(c.no, c.id));
    } else {
      assert before + [] == before;
    }
  }

  /** In whatever order the repository lists the chunks of a task, the page is the next
      page of the table's chunks in (number, id) order. */
  method ListTableChunksPage<T>(chunks: seq<Listed<T>>, table: Key, afterNo: int, afterID: Key, limit: int)
    returns (page: seq<Keyed<Listed<T>>>)
    requires DistinctKeys(OfTable(chunks, table))
    ensures var size := if limit <= 0 then 512 else limit;
            page == NextPage(SortByKey(OfTable(chunks, table)), UNBOUNDED, ChunkKey(afterNo, afterID), size)
  {
    var out: seq<Keyed<Listed<T>>> := [];
    for i := 0 to |chunks|
      invariant out == Select(OfTable(chunks[..i], table), UNBOUNDED, ChunkKey(afterNo, afterID))
    {
      KeepNext(chunks, i, table, afterNo, afterID);
      var ch := chunks[i];
      if ch.table != table {
        continue;
      }
      if ch.no < afterNo || (ch.no == afterNo && !Less(afterID, ch.id)) {
        continue;
      }
      out := out + [KeyedChunk(ch)];
    }
    assert chunks[..|chunks|] == chunks;
    SelectOfSorted(OfTable(chunks, table), UNBOUNDED, ChunkKey(afterNo, afterID));
    page := SortByKey(out);
    var size: int := limit;
    if size <= 0 {
      size := DEFAULT_LIMIT;
    }
    if |page| > size {
      page := page[..size];
    }
  }
}
