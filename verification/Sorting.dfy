/** Sorting records by distinct keys, for the program's sort.Slice calls: the result is
    the only ascending arrangement. */
module Sorting {
  import opened Keys
  import opened Reading

  lemma WithoutOne<T>(b: seq<T>, i: nat)
    requires i < |b|
    ensures b == b[..i] + ([b[i]] + b[i + 1..])
    ensures multiset(b[..i] + b[i + 1..]) == multiset(b) - multiset{b[i]}
  {
    assert b == b[..i] + ([b[i]] + b[i + 1..]);
  }

  /** The first element of a can be taken out of any rearrangement of a. */
  lemma TakeOut<T>(a: seq<T>, b: seq<T>) returns (i: nat)
    requires multiset(a) == multiset(b) && a != []
    ensures i < |b| && b[i] == a[0] && b == b[..i] + ([b[i]] + b[i + 1..])
    ensures multiset(a[1..]) == multiset(b[..i] + b[i + 1..])
  {
    assert a[0] in multiset(b);
    i :| 0 <= i < |b| && b[i] == a[0];
    WithoutOne(b, i);
    WithoutOne(a, 0);
    assert a[..0] + a[1..] == a[1..];
  }

  ghost predicate DistinctKeys<T>(rows: seq<Keyed<T>>) {
    forall i, j | 0 <= i < j < |rows| :: rows[i].key != rows[j].key
  }

  function Insert<T>(row: Keyed<T>, rows: seq<Keyed<T>>): seq<Keyed<T>> {
    if rows == [] || Less(row.key, rows[0].key) then [row] + rows
    else [rows[0]] + Insert(row, rows[1..])
  }

  function SortByKey<T>(rows: seq<Keyed<T>>): seq<Keyed<T>> {
    if rows == [] then [] else Insert(rows[0], SortByKey(rows[1..]))
  }

  lemma {:induction false} InsertMembers<T>(row: Keyed<T>, rows: seq<Keyed<T>>)
    ensures multiset(Insert(row, rows)) == multiset{row} + multiset(rows)
  {
    if rows != [] && !Less(row.key, rows[0].key) {
      InsertMembers(row, rows[1..]);
      assert rows == [rows[0]] + rows[1..];
    }
  }

  lemma SameMembers<T>(s: seq<T>, t: seq<T>, x: T)
    requires multiset(s) == multiset(t)
    ensures |s| == |t| && (x in s <==> x in t)
  {
    assert |s| == |multiset(s)| == |multiset(t)| == |t|;
    assert x in s <==> x in multiset(s);
    assert x in t <==> x in multiset(t);
  }

  lemma {:induction false} InsertSorted<T>(row: Keyed<T>, rows: seq<Keyed<T>>)
    requires Sorted(rows) && forall i | 0 <= i < |rows| :: rows[i].key != row.key
    ensures Sorted(Insert(row, rows))
  {
    if rows == [] {
    } else if Less(row.key, rows[0].key) {
      forall j | 1 <= j < |rows| ensures Less(row.key, rows[j].key) {
        LessTransitive(row.key, rows[0].key, rows[j].key);
      }
    } else {
      var rest := Insert(row, rows[1..]);
      InsertSorted(row, rows[1..]);
      InsertMembers(row, rows[1..]);
      LessTotal(row.key, rows[0].key);
      forall j | 0 <= j < |rest| ensures Less(rows[0].key, rest[j].key) {
        assert rest[j] in multiset(rest);
        assert rest[j] == row || rest[j] in rows[1..];
      }
    }
  }

  ghost predicate KeyFree<T>(rows: seq<Keyed<T>>, k: Key) {
    forall i | 0 <= i < |rows| :: rows[i].key != k
  }

  lemma KeyFreeRearranged<T>(a: seq<Keyed<T>>, b: seq<Keyed<T>>, k: Key)
    requires multiset(a) == multiset(b) && KeyFree(a, k)
    ensures KeyFree(b, k)
  {
    forall i | 0 <= i < |b| ensures b[i].key != k {
      SameMembers(a, b, b[i]);
    }
  }

  lemma {:induction false} SortKeepsMembers<T>(rows: seq<Keyed<T>>)
    ensures multiset(SortByKey(rows)) == multiset(rows)
  {
    if rows != [] {
      SortKeepsMembers(rows[1..]);
      InsertMembers(rows[0], SortByKey(rows[1..]));
      assert rows == [rows[0]] + rows[1..];
    }
  }

  lemma {:induction false} SortSorts<T>(rows: seq<Keyed<T>>)
    requires DistinctKeys(rows)
    ensures Sorted(SortByKey(rows))
  {
    if rows != [] {
      SortSorts(rows[1..]);
      SortKeepsMembers(rows[1..]);
      KeyFreeRearranged(rows[1..], SortByKey(rows[1..]), rows[0].key);
      InsertSorted(rows[0], SortByKey(rows[1..]));
    }
  }

  lemma FirstIsLeast<T>(a: seq<Keyed<T>>, row: Keyed<T>)
    requires Sorted(a) && a != [] && row in a
    ensures row == a[0] || Less(a[0].key, row.key)
  {
  }

  lemma SameFirst<T>(a: seq<Keyed<T>>, b: seq<Keyed<T>>)
    requires Sorted(a) && Sorted(b) && multiset(a) == multiset(b) && a != []
    ensures b != [] && a[0] == b[0] && multiset(a[1..]) == multiset(b[1..])
  {
    SameMembers(a, b, a[0]);
    SameMembers(a, b, b[0]);
    FirstIsLeast(a, b[0]);
    FirstIsLeast(b, a[0]);
    if a[0] != b[0] {
      LessAsymmetric(a[0].key, b[0].key);
    }
    assert a == [a[0]] + a[1..] && b == [b[0]] + b[1..];
    assert multiset(a[1..]) == multiset(a) - multiset{a[0]};
    assert multiset(b[1..]) == multiset(b) - multiset{a[0]};
  }

  /** There is only one ascending arrangement of the same records. */
  lemma {:induction false} SortedIsUnique<T>(a: seq<Keyed<T>>, b: seq<Keyed<T>>)
    requires Sorted(a) && Sorted(b) && multiset(a) == multiset(b)
    ensures a == b
  {
    assert |a| == |multiset(a)| == |multiset(b)| == |b|;
    if a != [] {
      SameFirst(a, b);
      SortedIsUnique(a[1..], b[1..]);
      assert a == [a[0]] + a[1..] && b == [b[0]] + b[1..];
    }
  }

  /** The order in which records are listed does not matter. */
  lemma SortIgnoresOrder<T>(a: seq<Keyed<T>>, b: seq<Keyed<T>>)
    requires multiset(a) == multiset(b) && DistinctKeys(a) && DistinctKeys(b)
    ensures SortByKey(a) == SortByKey(b)
  {
    SortKeepsMembers(a);
    SortKeepsMembers(b);
    SortSorts(a);
    SortSorts(b);
    SortedIsUnique(SortByKey(a), SortByKey(b));
  }
}
