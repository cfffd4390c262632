/** Ordered keys: a numeric primary key n is the tuple [n]; a composite key is
    the tuple of its columns; the empty tuple means "no bound" or "no cursor",
    which is also how the connectors read it. */
module Keys {

  type Key = seq<int>

  /** Lexicographic order, the row-value comparison of the SQL connectors. */
  predicate Less(a: Key, b: Key) {
    b != [] && (a == [] || a[0] < b[0] || (a[0] == b[0] && Less(a[1..], b[1..])))
  }

  lemma {:induction false} LessIrreflexive(a: Key)
    ensures !Less(a, a)
  {
    if a != [] {
      LessIrreflexive(a[1..]);
    }
  }

  lemma {:induction false} LessTransitive(a: Key, b: Key, c: Key)
    requires Less(a, b) && Less(b, c)
    ensures Less(a, c)
  {
    if a != [] && a[0] == b[0] == c[0] {
      LessTransitive(a[1..], b[1..], c[1..]);
    }
  }

  lemma {:induction false} LessTotal(a: Key, b: Key)
    ensures Less(a, b) || a == b || Less(b, a)
  {
    if a != [] && b != [] && a[0] == b[0] {
      LessTotal(a[1..], b[1..]);
      assert a == [a[0]] + a[1..];
      assert b == [b[0]] + b[1..];
    }
  }

  lemma LessAsymmetric(a: Key, b: Key)
    requires Less(a, b)
    ensures !Less(b, a)
  {
    if Less(b, a) {
      LessTransitive(a, b, a);
      LessIrreflexive(a);
    }
  }

  /** Chaining a strict with a weak comparison, and two weak ones. */
  lemma LessMixed(a: Key, b: Key, c: Key)
    ensures Less(a, b) && !Less(c, b) ==> Less(a, c)
    ensures !Less(b, a) && Less(b, c) ==> Less(a, c)
    ensures !Less(b, a) && !Less(c, b) ==> !Less(c, a)
  {
    LessTotal(a, b);
    LessTotal(b, c);
    if Less(a, b) && Less(b, c) {
      LessTransitive(a, b, c);
    }
    if Less(a, c) {
      LessAsymmetric(a, c);
    }
    if Less(c, a) && !Less(b, a) && !Less(c, b) {
      LessIrreflexive(a);
    }
  }

  lemma SingleLess(a: Key, b: Key)
    requires |a| == |b| == 1
    ensures Less(a, b) <==> a[0] < b[0]
  {
    assert b[1..] == [];
  }

  /** One key is before another exactly if it is a proper prefix of it or has the smaller
      number at the first place where they differ. */
  lemma {:induction false} LessMeaning(a: Key, b: Key)
    ensures Less(a, b) <==> exists n: nat :: FirstDifference(a, b, n) && (n == |a| || a[n] < b[n])
  {
    if b != [] && a != [] && a[0] == b[0] {
      LessMeaning(a[1..], b[1..]);
      if Less(a, b) {
        var n: nat :| FirstDifference(a[1..], b[1..], n) && (n == |a[1..]| || a[1..][n] < b[1..][n]);
        DifferenceBehind(a, b, n);
        assert FirstDifference(a, b, n + 1);
      }
      if n: nat :| FirstDifference(a, b, n) && (n == |a| || a[n] < b[n]) {
        assert n > 0;
        DifferenceBehind(a, b, n - 1);
        assert FirstDifference(a[1..], b[1..], n - 1);
      }
    } else if b != [] {
      assert FirstDifference(a, b, 0);
    }
  }

  /** The keys agree in their first n numbers, and the second one has more. */
  ghost predicate FirstDifference(a: Key, b: Key, n: nat) {
    n <= |a| && n < |b| && a[..n] == b[..n]
  }

  lemma DifferenceBehind(a: Key, b: Key, n: nat)
    requires a != [] && b != [] && a[0] == b[0]
    ensures FirstDifference(a, b, n + 1) <==> FirstDifference(a[1..], b[1..], n)
  {
    if n < |a| && n + 1 < |b| {
      assert a[..n + 1] == [a[0]] + a[1..][..n] && b[..n + 1] == [b[0]] + b[1..][..n];
      assert a[..n + 1][1..] == a[1..][..n] && b[..n + 1][1..] == b[1..][..n];
    }
  }
}
