/** The connector contract every reader relies on: ReadBatch returns the next
    rows in key order after a cursor, inside immutable chunk bounds. */
module Reading {
  import opened Keys

  datatype Keyed<T> = Keyed(key: Key, item: T)

  /** KeysetBounds is [lower, upper) with an empty tuple for an absent bound;
      RangeBounds is the inclusive range of a numeric primary key. */
  datatype Bounds = KeysetBounds(lower: Key, upper: Key) | RangeBounds(start: int, end: int)

  /** The WHERE clause of a batch read. With a keyset cursor the lower bound is
      not part of the clause. */
  predicate Admits(b: Bounds, cursor: Key, k: Key) {
    match b
    case KeysetBounds(lower, upper) =>
      (if cursor != [] then Less(cursor, k) else !Less(k, lower)) && (upper == [] || Less(k, upper))
    case RangeBounds(start, end) =>
      k != [] && start <= k[0] <= end && (cursor == [] || Less(cursor, k))
  }

  ghost predicate Sorted<T>(rows: seq<Keyed<T>>) {
    forall i, j | 0 <= i < j < |rows| :: Less(rows[i].key, rows[j].key)
  }

  /** Rows of a table that a read with this cursor can still return, in order. */
  function Select<T>(rows: seq<Keyed<T>>, b: Bounds, cursor: Key): seq<Keyed<T>> {
    if rows == [] then []
    else if Admits(b, cursor, rows[0].key) then [rows[0]] + Select(rows[1..], b, cursor)
    else Select(rows[1..], b, cursor)
  }

  function Min(a: nat, b: nat): nat { if a <= b then a else b }

  /** One ReadBatch: the first `limit` of the selected rows. */
  function NextPage<T>(rows: seq<Keyed<T>>, b: Bounds, cursor: Key, limit: nat): seq<Keyed<T>> {
    var s := Select(rows, b, cursor);
    s[..Min(limit, |s|)]
  }

  /** Select is a filter: what it returns, and that it drops nothing admitted. */
  lemma {:induction false} SelectMembers<T>(rows: seq<Keyed<T>>, b: Bounds, cursor: Key)
    ensures forall i | 0 <= i < |Select(rows, b, cursor)| ::
              Select(rows, b, cursor)[i] in rows && Admits(b, cursor, Select(rows, b, cursor)[i].key)
    ensures forall r | r in rows && Admits(b, cursor, r.key) :: r in Select(rows, b, cursor)
  {
    if rows != [] {
      SelectMembers(rows[1..], b, cursor);
      var tail := Select(rows[1..], b, cursor);
      var head := if Admits(b, cursor, rows[0].key) then [rows[0]] else [];
      forall i | 0 <= i < |head + tail|
        ensures (head + tail)[i] in rows && Admits(b, cursor, (head + tail)[i].key)
      {
        if i >= |head| {
          assert (head + tail)[i] == tail[i - |head|];
          assert tail[i - |head|] in rows[1..];
        }
      }
    }
  }

  lemma {:induction false} SelectSorted<T>(rows: seq<Keyed<T>>, b: Bounds, cursor: Key)
    requires Sorted(rows)
    ensures Sorted(Select(rows, b, cursor))
  {
    if rows != [] {
      SelectSorted(rows[1..], b, cursor);
      SelectMembers(rows[1..], b, cursor);
      var tail := Select(rows[1..], b, cursor);
      forall j | 0 <= j < |tail| ensures Less(rows[0].key, tail[j].key) {
        assert tail[j] in rows[1..];
      }
      assert Sorted(tail);
    }
  }

  /** Rows with a key beyond c. */
  function After<T>(rows: seq<Keyed<T>>, c: Key): seq<Keyed<T>> {
    if rows == [] then []
    else if Less(c, rows[0].key) then [rows[0]] + After(rows[1..], c)
    else After(rows[1..], c)
  }

  lemma {:induction false} AfterAll<T>(rows: seq<Keyed<T>>, c: Key)
    requires forall r | r in rows :: Less(c, r.key)
    ensures After(rows, c) == rows
  {
    if rows != [] {
      assert rows[0] in rows;
      AfterAll(rows[1..], c);
    }
  }

  lemma {:induction false} AfterElement<T>(rows: seq<Keyed<T>>, i: nat)
    requires Sorted(rows) && i < |rows|
    ensures After(rows, rows[i].key) == rows[i + 1..]
  {
    if i == 0 {
      LessIrreflexive(rows[0].key);
      AfterAll(rows[1..], rows[0].key);
    } else {
      LessAsymmetric(rows[0].key, rows[i].key);
      AfterElement(rows[1..], i - 1);
      assert rows[1..][i - 1] == rows[i];
      assert rows[1..][i..] == rows[i + 1..];
    }
  }

  lemma AdvanceAdmits(b: Bounds, cursor: Key, next: Key, k: Key)
    requires next != [] && Admits(b, cursor, next)
    ensures Admits(b, next, k) <==> Admits(b, cursor, k) && Less(next, k)
  {
    if Less(next, k) {
      if cursor != [] {
        LessTransitive(cursor, next, k);
      } else if b.KeysetBounds? && Less(k, b.lower) {
        LessTransitive(next, k, b.lower);
      }
    }
  }

  /** Advancing the cursor inside the bounds filters the selection and nothing else. */
  lemma {:induction false} AdvanceFilters<T>(rows: seq<Keyed<T>>, b: Bounds, cursor: Key, next: Key)
    requires next != [] && Admits(b, cursor, next)
    ensures Select(rows, b, next) == After(Select(rows, b, cursor), next)
  {
    if rows != [] {
      var k := rows[0].key;
      AdvanceFilters(rows[1..], b, cursor, next);
      AdvanceAdmits(b, cursor, next, k);
      assert ([rows[0]] + Select(rows[1..], b, cursor))[1..] == Select(rows[1..], b, cursor);
    }
  }

  /** Resuming after the i-th selected row selects exactly the rows behind it. */
  lemma ResumeAt<T>(rows: seq<Keyed<T>>, b: Bounds, cursor: Key, i: nat)
    requires Sorted(rows)
    requires i < |Select(rows, b, cursor)| && Select(rows, b, cursor)[i].key != []
    ensures Select(rows, b, Select(rows, b, cursor)[i].key) == Select(rows, b, cursor)[i + 1..]
  {
    var s := Select(rows, b, cursor);
    SelectMembers(rows, b, cursor);
    SelectSorted(rows, b, cursor);
    AdvanceFilters(rows, b, cursor, s[i].key);
    AfterElement(s, i);
  }
}
