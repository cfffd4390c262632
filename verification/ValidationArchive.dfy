/** The immutable archive of a task's validation evidence: one record per table, built by
    paging through the evidence rows, and one record per task, stored at most once. */
module ValidationArchives {
  import opened Wrappers
  import opened Keys
  import opened Reading
  import opened Encoding
  import opened Sorting
  import opened HotPath

  // ----- evidence

  /** Instants are integers; NO_TIME is the zero instant. */
  const NO_TIME := 0

  datatype Evidence = Evidence(
    chunkID: Bytes, chunkNo: int, splitType: Bytes, validationID: Bytes, status: Bytes,
    sourceRows: int, targetRows: int, sourceChecksum: Bytes, targetChecksum: Bytes,
    lastError: Bytes, startedAt: int, finishedAt: int)

  /** Library functions: SHA-256, RFC 3339 text of a nonzero instant, and upper-casing of
      the trimmed text. */
  datatype Text = Text(sha: Bytes -> Bytes, timeText: int -> Bytes, upper: Bytes -> Bytes)

  function Ascii(s: string): Bytes {
    seq(|s|, i requires 0 <= i < |s| => s[i] as int % 256)
  }

  predicate IsComplex(t: Text, splitType: Bytes) {
    var s := t.upper(splitType);
    s != Ascii("PRIMARY_KEY_RANGE") && s != Ascii("PK_RANGE") && s != Ascii("PK_RANGE_ADAPTIVE")
  }

  datatype Kind = Missing | Covered | Success | Mismatch | Error

  predicate Is(kind: Kind, e: Evidence) {
    match kind
    case Missing => e.validationID == []
    case Covered => e.validationID != []
    case Success => e.validationID != [] && e.status == Ascii("SUCCESS")
    case Mismatch => e.validationID != [] && e.status == Ascii("MISMATCH")
    case Error => e.validationID != [] && e.status == Ascii("ERROR")
  }

  // ----- what an archive says, as functions of all the evidence of a table

  function Count(kind: Kind, es: seq<Evidence>): nat {
    if es == [] then 0
    else Count(kind, es[..|es| - 1]) + (if Is(kind, es[|es| - 1]) then 1 else 0)
  }

  predicate AnyComplex(t: Text, es: seq<Evidence>) {
    es != [] && (AnyComplex(t, es[..|es| - 1]) || IsComplex(t, es[|es| - 1].splitType))
  }

  /** Validated rows before the first complex split, and from it on. */
  function SimplePart(t: Text, es: seq<Evidence>): seq<Evidence> {
    if es == [] then []
    else
      var before, e := es[..|es| - 1], es[|es| - 1];
      if Is(Covered, e) && !AnyComplex(t, es) then SimplePart(t, before) + [e] else SimplePart(t, before)
  }

  function UnionPart(t: Text, es: seq<Evidence>): seq<Evidence> {
    if es == [] then []
    else
      var before, e := es[..|es| - 1], es[|es| - 1];
      if Is(Covered, e) && AnyComplex(t, es) then UnionPart(t, before) + [e] else UnionPart(t, before)
  }

  function SourceSum(es: seq<Evidence>): int {
    if es == [] then 0 else SourceSum(es[..|es| - 1]) + es[|es| - 1].sourceRows
  }

  function TargetSum(es: seq<Evidence>): int {
    if es == [] then 0 else TargetSum(es[..|es| - 1]) + es[|es| - 1].targetRows
  }

  predicate Same(a: Evidence, b: Evidence) {
    a.sourceRows == b.sourceRows && a.targetRows == b.targetRows
    && a.sourceChecksum == b.sourceChecksum && a.targetChecksum == b.targetChecksum
  }

  predicate Agree(es: seq<Evidence>) {
    forall i | 0 <= i < |es| :: Same(es[0], es[i])
  }

  function FirstStart(es: seq<Evidence>): int {
    if es == [] then NO_TIME
    else
      var first, e := FirstStart(es[..|es| - 1]), es[|es| - 1];
      if Is(Covered, e) && (first == NO_TIME || (e.startedAt != NO_TIME && e.startedAt < first)) then e.startedAt
      else first
  }

  function LastFinish(es: seq<Evidence>): int {
    if es == [] then NO_TIME
    else
      var last, e := LastFinish(es[..|es| - 1]), es[|es| - 1];
      if Is(Covered, e) && e.finishedAt > last then e.finishedAt else last
  }

  function TimeField(t: Text, at: int): Bytes {
    if at == NO_TIME then [] else t.timeText(at)
  }

  function EvidenceFields(t: Text, e: Evidence): seq<Bytes> {
    [e.chunkID, IntText(e.chunkNo), e.splitType, e.validationID, e.status,
     IntText(e.sourceRows), IntText(e.targetRows), e.sourceChecksum, e.targetChecksum,
     e.lastError, TimeField(t, e.startedAt), TimeField(t, e.finishedAt)]
  }

  datatype Side = All | Source | Target

  /** The fields one row contributes to each of the three digests of a table. */
  function Fields(t: Text, side: Side, e: Evidence): seq<Bytes> {
    match side
    case All => EvidenceFields(t, e)
    case Source => if Is(Covered, e) then [e.chunkID, IntText(e.sourceRows), e.sourceChecksum] else []
    case Target => if Is(Covered, e) then [e.chunkID, IntText(e.targetRows), e.targetChecksum] else []
  }

  function AllFields(t: Text, side: Side, es: seq<Evidence>): seq<Bytes> {
    if es == [] then [] else AllFields(t, side, es[..|es| - 1]) + Fields(t, side, es[|es| - 1])
  }

  datatype Scope = ChunkSet | TableUnion | Mixed

  datatype TableArchive = TableArchive(
    tableID: Bytes, scope: Scope,
    total: nat, covered: nat, success: nat, mismatch: nat, errors: nat, missing: nat,
    sourceRows: int, targetRows: int, sourceChecksum: Bytes, targetChecksum: Bytes,
    firstStart: int, lastFinish: int,
    evidenceDigest: Bytes, sourceDigest: Bytes, targetDigest: Bytes)

  /** The archive of a table with this evidence. */
  function ArchiveOf(t: Text, tableID: Bytes, es: seq<Evidence>): TableArchive {
    var simple, union := SimplePart(t, es), UnionPart(t, es);
    var merged := AnyComplex(t, es) && union != [] && Agree(union);
    TableArchive(
      tableID, if !AnyComplex(t, es) then ChunkSet else if merged then TableUnion else Mixed,
      |es|, Count(Covered, es), Count(Success, es), Count(Mismatch, es), Count(Error, es), Count(Missing, es),
      if merged then union[0].sourceRows else SourceSum(simple), if merged then union[0].targetRows else TargetSum(simple),
      if merged then union[0].sourceChecksum else [], if merged then union[0].targetChecksum else [],
      FirstStart(es), LastFinish(es),
      t.sha(FieldsBytes(AllFields(t, All, es))), t.sha(FieldsBytes(AllFields(t, Source, es))),
      t.sha(FieldsBytes(AllFields(t, Target, es))))
  }

  // ----- one row at a time

  datatype Counts = Counts(total: nat, covered: nat, success: nat, mismatch: nat, errors: nat, missing: nat)
  datatype Times = Times(first: int, last: int)
  datatype Digests = Digests(all: Bytes, source: Bytes, target: Bytes)
  datatype Sums = Sums(source: int, target: int)
  datatype Union = Union(
    initialized: bool, consistent: bool,
    sourceRows: int, targetRows: int, sourceChecksum: Bytes, targetChecksum: Bytes)

  /** The variables of the loop over evidence rows. */
  datatype Tally = Tally(counts: Counts, times: Times, digests: Digests, complex: bool, sums: Sums, union: Union)

  const EMPTY := Tally(Counts(0, 0, 0, 0, 0, 0), Times(NO_TIME, NO_TIME), Digests([], [], []), false,
                       Sums(0, 0), Union(false, true, 0, 0, [], []))

  function NextCounts(c: Counts, e: Evidence): Counts {
    Counts(c.total + 1, c.covered + One(Covered, e), c.success + One(Success, e), c.mismatch + One(Mismatch, e),
           c.errors + One(Error, e), c.missing + One(Missing, e))
  }

  function One(kind: Kind, e: Evidence): nat {
    if Is(kind, e) then 1 else 0
  }

  function NextTimes(times: Times, e: Evidence): Times {
    if Is(Missing, e) then times
    else Times(if times.first == NO_TIME || (e.startedAt != NO_TIME && e.startedAt < times.first) then e.startedAt else times.first,
               if e.finishedAt > times.last then e.finishedAt else times.last)
  }

  function NextDigests(t: Text, d: Digests, e: Evidence): Digests {
    Digests(d.all + FieldsBytes(Fields(t, All, e)), d.source + FieldsBytes(Fields(t, Source, e)),
            d.target + FieldsBytes(Fields(t, Target, e)))
  }

  function NextUnion(u: Union, e: Evidence): Union {
    if !u.initialized then Union(true, u.consistent, e.sourceRows, e.targetRows, e.sourceChecksum, e.targetChecksum)
    else
      var same := u.sourceRows == e.sourceRows && u.targetRows == e.targetRows
                  && u.sourceChecksum == e.sourceChecksum && u.targetChecksum == e.targetChecksum;
      u.(consistent := u.consistent && same)
  }

  function Next(t: Text, s: Tally, e: Evidence): Tally {
    var complex := s.complex || IsComplex(t, e.splitType);
    Tally(NextCounts(s.counts, e), NextTimes(s.times, e), NextDigests(t, s.digests, e), complex,
          if Is(Covered, e) && !complex then Sums(s.sums.source + e.sourceRows, s.sums.target + e.targetRows) else s.sums,
          if Is(Covered, e) && complex then NextUnion(s.union, e) else s.union)
  }

  function Fold(t: Text, s: Tally, es: seq<Evidence>): Tally
    decreases |es|
  {
    if es == [] then s else Fold(t, Next(t, s, es[0]), es[1..])
  }

  /** The record made from the final values of the variables. */
  function Finished(t: Text, tableID: Bytes, s: Tally): TableArchive {
    var merged := s.complex && s.union.initialized && s.union.consistent;
    TableArchive(
      tableID, if !s.complex then ChunkSet else if merged then TableUnion else Mixed,
      s.counts.total, s.counts.covered, s.counts.success, s.counts.mismatch, s.counts.errors, s.counts.missing,
      if merged then s.union.sourceRows else s.sums.source, if merged then s.union.targetRows else s.sums.target,
      if merged then s.union.sourceChecksum else [], if merged then s.union.targetChecksum else [],
      s.times.first, s.times.last,
      t.sha(s.digests.all), t.sha(s.digests.source), t.sha(s.digests.target))
  }

  method CountStatus(c: Counts, e: Evidence) returns (out: Counts)
    requires e.validationID != []
    ensures out == NextCounts(c, e).(total := c.total)
  {
    out := c.(covered := c.covered + 1);
    StatusesDiffer();
    if e.status == Ascii("SUCCESS") {
      out := out.(success := out.success + 1);
    } else if e.status == Ascii("MISMATCH") {
      out := out.(mismatch := out.mismatch + 1);
    } else if e.status == Ascii("ERROR") {
      out := out.(errors := out.errors + 1);
    }
  }

  method WidenTimes(times: Times, e: Evidence) returns (out: Times)
    requires e.validationID != []
    ensures out == NextTimes(times, e)
  {
    out := times;
    if out.first == NO_TIME || (e.startedAt != NO_TIME && e.startedAt < out.first) {
      out := out.(first := e.startedAt);
    }
    if e.finishedAt > out.last {
      out := out.(last := e.finishedAt);
    }
  }

  method JoinUnion(u: Union, e: Evidence) returns (out: Union)
    ensures out == NextUnion(u, e)
  {
    out := u;
    if !out.initialized {
      out := Union(true, out.consistent, e.sourceRows, e.targetRows, e.sourceChecksum, e.targetChecksum);
    } else if out.sourceRows != e.sourceRows || out.targetRows != e.targetRows
              || out.sourceChecksum != e.sourceChecksum || out.targetChecksum != e.targetChecksum {
      out := out.(consistent := false);
    }
  }

  method DigestSides(t: Text, d: Digests, e: Evidence) returns (source: Bytes, target: Bytes)
    requires e.validationID != []
    ensures source == NextDigests(t, d, e).source && target == NextDigests(t, d, e).target
  {
    source := DigestFields(d.source, [e.chunkID, IntText(e.sourceRows), e.sourceChecksum]);
    target := DigestFields(d.target, [e.chunkID, IntText(e.targetRows), e.targetChecksum]);
  }

  /** The body of the loop. */
  method AddRow(t: Text, s: Tally, e: Evidence) returns (out: Tally)
    ensures out == Next(t, s, e)
  {
    var counts, times := s.counts.(total := s.counts.total + 1), s.times;
    var complex, sums, union := s.complex, s.sums, s.union;
    if IsComplex(t, e.splitType) {
      complex := true;
    }
    var all := DigestFields(s.digests.all, EvidenceFields(t, e));
    if e.validationID == [] {
      counts := counts.(missing := counts.missing + 1);
      return Tally(counts, times, s.digests.(all := all), complex, sums, union);
    }
    counts := CountStatus(counts, e);
    times := WidenTimes(times, e);
    var source, target := DigestSides(t, s.digests, e);
    if complex {
      union := JoinUnion(union, e);
    } else {
      sums := Sums(sums.source + e.sourceRows, sums.target + e.targetRows);
    }
    return Tally(counts, times, Digests(all, source, target), complex, sums, union);
  }

  lemma StatusesDiffer()
    ensures Ascii("SUCCESS") != Ascii("MISMATCH") && Ascii("SUCCESS") != Ascii("ERROR") && Ascii("MISMATCH") != Ascii("ERROR")
  {
    assert |Ascii("SUCCESS")| == 7 && |Ascii("MISMATCH")| == 8 && |Ascii("ERROR")| == 5;
  }

  /** Writes the fields one after the other into a running hash. */
  method DigestFields(h: Bytes, fields: seq<Bytes>) returns (fed: Bytes)
    ensures fed == h + FieldsBytes(fields)
  {
    fed := h;
    for i := 0 to |fields|
      invariant fed == h + FieldsBytes(fields[..i])
    {
      assert fields[..i + 1] == fields[..i] + [fields[i]];
      FieldsConcat(fields[..i], [fields[i]]);
      assert FieldsBytes([fields[i]]) == FieldBytes(fields[i]) + [];
      fed := fed + FieldBytes(fields[i]);
    }
    assert fields[..|fields|] == fields;
  }

  lemma {:induction false} FoldConcat(t: Text, s: Tally, a: seq<Evidence>, b: seq<Evidence>)
    ensures Fold(t, s, a + b) == Fold(t, Fold(t, s, a), b)
    decreases |a|
  {
    if a == [] {
      assert a + b == b;
    } else {
      assert (a + b)[1..] == a[1..] + b;
      FoldConcat(t, Next(t, s, a[0]), a[1..], b);
    }
  }

  lemma FoldLast(t: Text, s: Tally, es: seq<Evidence>)
    requires es != []
    ensures Fold(t, s, es) == Next(t, Fold(t, s, es[..|es| - 1]), es[|es| - 1])
  {
    var before, e := es[..|es| - 1], es[|es| - 1];
    assert es == before + [e];
    FoldConcat(t, s, before, [e]);
    assert Fold(t, Fold(t, s, before), [e]) == Fold(t, Next(t, Fold(t, s, before), e), []);
  }

  // ----- what the variables mean

  lemma {:induction false} CountsMean(t: Text, es: seq<Evidence>)
    ensures Fold(t, EMPTY, es).counts ==
            Counts(|es|, Count(Covered, es), Count(Success, es), Count(Mismatch, es), Count(Error, es), Count(Missing, es))
    decreases |es|
  {
    if es != [] {
      FoldLast(t, EMPTY, es);
      CountsMean(t, es[..|es| - 1]);
    }
  }

  lemma {:induction false} TimesMean(t: Text, es: seq<Evidence>)
    ensures Fold(t, EMPTY, es).times == Times(FirstStart(es), LastFinish(es))
    decreases |es|
  {
    if es != [] {
      FoldLast(t, EMPTY, es);
      TimesMean(t, es[..|es| - 1]);
    }
  }

  lemma {:induction false} DigestsMean(t: Text, es: seq<Evidence>)
    ensures Fold(t, EMPTY, es).digests ==
            Digests(FieldsBytes(AllFields(t, All, es)), FieldsBytes(AllFields(t, Source, es)), FieldsBytes(AllFields(t, Target, es)))
    decreases |es|
  {
    if es != [] {
      var before, e := es[..|es| - 1], es[|es| - 1];
      FoldLast(t, EMPTY, es);
      DigestsMean(t, before);
      FieldsConcat(AllFields(t, All, before), Fields(t, All, e));
      FieldsConcat(AllFields(t, Source, before), Fields(t, Source, e));
      FieldsConcat(AllFields(t, Target, before), Fields(t, Target, e));
    }
  }

  lemma {:induction false} ComplexMeans(t: Text, es: seq<Evidence>)
    ensures Fold(t, EMPTY, es).complex == AnyComplex(t, es)
    decreases |es|
  {
    if es != [] {
      FoldLast(t, EMPTY, es);
      ComplexMeans(t, es[..|es| - 1]);
    }
  }

  lemma SumNext(es: seq<Evidence>, e: Evidence)
    ensures SourceSum(es + [e]) == SourceSum(es) + e.sourceRows && TargetSum(es + [e]) == TargetSum(es) + e.targetRows
  {
    assert (es + [e])[..|es|] == es;
  }

  ghost predicate SumsAre(sums: Sums, es: seq<Evidence>) {
    sums.source == SourceSum(es) && sums.target == TargetSum(es)
  }

  lemma SumsStep(t: Text, s: Tally, e: Evidence, simple: seq<Evidence>)
    requires SumsAre(s.sums, simple)
    ensures SumsAre(Next(t, s, e).sums, if Is(Covered, e) && !Next(t, s, e).complex then simple + [e] else simple)
  {
    SumNext(simple, e);
  }

  lemma SimpleNext(t: Text, es: seq<Evidence>)
    requires es != []
    ensures var before, e := es[..|es| - 1], es[|es| - 1];
            SimplePart(t, es) == if Is(Covered, e) && !AnyComplex(t, es) then SimplePart(t, before) + [e] else SimplePart(t, before)
  {
  }

  lemma {:induction false} SumsMean(t: Text, es: seq<Evidence>)
    ensures SumsAre(Fold(t, EMPTY, es).sums, SimplePart(t, es))
    decreases |es|
  {
    if es != [] {
      var before, e := es[..|es| - 1], es[|es| - 1];
      SumsMean(t, before);
      SumsStep(t, Fold(t, EMPTY, before), e, SimplePart(t, before));
      FoldLast(t, EMPTY, es);
      ComplexMeans(t, es);
      SimpleNext(t, es);
    }
  }

  ghost predicate UnionIs(u: Union, union: seq<Evidence>) {
    && u.initialized == (union != []) && u.consistent == Agree(union)
    && (union != [] ==>
          && u.sourceRows == union[0].sourceRows && u.targetRows == union[0].targetRows
          && u.sourceChecksum == union[0].sourceChecksum && u.targetChecksum == union[0].targetChecksum)
  }

  lemma UnionNext(u: Union, union: seq<Evidence>, e: Evidence)
    requires UnionIs(u, union)
    ensures UnionIs(NextUnion(u, e), union + [e])
  {
    var more := union + [e];
    assert more[|union|] == e && forall i | 0 <= i < |union| :: more[i] == union[i];
    if union != [] && Agree(more) {
      assert forall i | 0 <= i < |union| :: Same(more[0], more[i]);
    }
  }

  lemma {:induction false} UnionMeans(t: Text, es: seq<Evidence>)
    ensures UnionIs(Fold(t, EMPTY, es).union, UnionPart(t, es))
    decreases |es|
  {
    if es != [] {
      FoldLast(t, EMPTY, es);
      ComplexMeans(t, es);
      UnionMeans(t, es[..|es| - 1]);
      UnionNext(Fold(t, EMPTY, es[..|es| - 1]).union, UnionPart(t, es[..|es| - 1]), es[|es| - 1]);
    }
  }

  /** The loop's result is the archive of the evidence it went through. */
  lemma FoldIsArchive(t: Text, tableID: Bytes, es: seq<Evidence>)
    ensures Finished(t, tableID, Fold(t, EMPTY, es)) == ArchiveOf(t, tableID, es)
  {
    CountsMean(t, es);
    TimesMean(t, es);
    DigestsMean(t, es);
    ComplexMeans(t, es);
    SumsMean(t, es);
    UnionMeans(t, es);
  }

  // ----- paging

  const MAX_PAGE := 5000

  /** The provider's page: evidence rows behind (afterNo, afterID), in that order, with its own limit on limits. */
  function EvidencePage(table: seq<Keyed<Evidence>>, afterNo: int, afterID: Bytes, limit: int): seq<Keyed<Evidence>> {
    NextPage(table, UNBOUNDED, ChunkKey(afterNo, afterID), PageLimit(limit))
  }

  function PageLimit(limit: int): nat {
    if limit <= 0 || limit > MAX_PAGE then DEFAULT_LIMIT else limit
  }

  function EvidenceOf(rows: seq<Keyed<Evidence>>): seq<Evidence> {
    if rows == [] then [] else [rows[0].item] + EvidenceOf(rows[1..])
  }

  ghost predicate Indexed(table: seq<Keyed<Evidence>>) {
    Sorted(table) && forall i | 0 <= i < |table| :: table[i].key == ChunkKey(table[i].item.chunkNo, table[i].item.chunkID)
  }

  /** Evidence behind a cursor, in order. */
  function Remaining(table: seq<Keyed<Evidence>>, afterNo: int, afterID: Bytes): seq<Evidence> {
    EvidenceOf(Select(table, UNBOUNDED, ChunkKey(afterNo, afterID)))
  }

  /** All evidence the loop starts from. */
  function Everything(table: seq<Keyed<Evidence>>): seq<Evidence> {
    Remaining(table, -1, [])
  }

  lemma {:induction false} EvidenceOfConcat(a: seq<Keyed<Evidence>>, b: seq<Keyed<Evidence>>)
    ensures EvidenceOf(a + b) == EvidenceOf(a) + EvidenceOf(b)
  {
    if a == [] {
      assert a + b == b;
    } else {
      assert (a + b)[1..] == a[1..] + b;
      EvidenceOfConcat(a[1..], b);
    }
  }

  lemma {:induction false} EvidenceOfLength(a: seq<Keyed<Evidence>>)
    ensures |EvidenceOf(a)| == |a| && forall i | 0 <= i < |a| :: EvidenceOf(a)[i] == a[i].item
  {
    if a != [] {
      EvidenceOfLength(a[1..]);
    }
  }

  /** The next page is the front of what lies behind the cursor, and its last row leads to the rest. */
  lemma PageThenRest(table: seq<Keyed<Evidence>>, afterNo: int, afterID: Bytes, limit: int)
    requires Indexed(table)
    ensures var page, rest := EvidencePage(table, afterNo, afterID, limit), Remaining(table, afterNo, afterID);
            && |page| == Min(PageLimit(limit), |rest|) && EvidenceOf(page) == rest[..|page|]
            && (page != [] ==>
                  var last := page[|page| - 1].item;
                  Remaining(table, last.chunkNo, last.chunkID) == rest[|page|..])
  {
    var cursor := ChunkKey(afterNo, afterID);
    var page, all := EvidencePage(table, afterNo, afterID, limit), Select(table, UNBOUNDED, cursor);
    EvidenceOfLength(all);
    assert all == page + all[|page|..];
    EvidenceOfLength(page);
    EvidenceOfConcat(page, all[|page|..]);
    if page != [] {
      SelectMembers(table, UNBOUNDED, cursor);
      assert all[|page| - 1] in table;
      ResumeAt(table, UNBOUNDED, cursor, |page| - 1);
    }
  }

  /** What a build with this page size visits: a page size beyond the provider's limit
      makes every page look like the last one. */
  function Visited(es: seq<Evidence>, pageSize: int): seq<Evidence> {
    if pageSize > MAX_PAGE then es[..Min(DEFAULT_LIMIT, |es|)] else es
  }

  /** Adds the page behind a cursor: how many rows it had, and the next cursor. */
  method ReadPage(t: Text, s: Tally, table: seq<Keyed<Evidence>>, afterNo: int, afterID: Bytes, limit: int)
    returns (out: Tally, n: nat, no: int, id: Bytes)
    requires Indexed(table)
    ensures n == Min(PageLimit(limit), |Remaining(table, afterNo, afterID)|)
    ensures n == 0 ==> out == s
    ensures n > 0 ==> && out == Fold(t, s, Remaining(table, afterNo, afterID)[..n])
                      && Remaining(table, no, id) == Remaining(table, afterNo, afterID)[n..]
  {
    var page := EvidencePage(table, afterNo, afterID, limit);
    PageThenRest(table, afterNo, afterID, limit);
    if page == [] {
      return s, 0, afterNo, afterID;
    }
    out := s;
    for i := 0 to |page|
      invariant Fold(t, out, EvidenceOf(page[i..])) == Fold(t, s, EvidenceOf(page))
    {
      assert page[i..][1..] == page[i + 1..];
      out := AddRow(t, out, page[i].item);
    }
    var last := page[|page| - 1].item;
    return out, |page|, last.chunkNo, last.chunkID;
  }

  /** The record of one table. The page size does not matter as long as the provider
      honours it. */
  method BuildTableArchive(t: Text, tableID: Bytes, table: seq<Keyed<Evidence>>, pageSize: int) returns (out: TableArchive)
    requires Indexed(table)
    ensures out == ArchiveOf(t, tableID, Visited(Everything(table), pageSize))
  {
    var tally, afterNo: int, afterID: Bytes := EMPTY, -1, [];
    ghost var first := true;
    while true
      invariant Fold(t, tally, Remaining(table, afterNo, afterID)) == Fold(t, EMPTY, Everything(table))
      invariant pageSize > MAX_PAGE ==> first
      invariant first ==> tally == EMPTY && afterNo == -1 && afterID == []
      decreases |Remaining(table, afterNo, afterID)|
    {
      ghost var rest := Remaining(table, afterNo, afterID);
      var n;
      ghost var before := tally;
      tally, n, afterNo, afterID := ReadPage(t, tally, table, afterNo, afterID, pageSize);
      SplitFold(t, before, rest, n);
      if n == 0 {
        break;
      }
      first := false;
      if n < pageSize {
        break;
      }
    }
    FoldIsArchive(t, tableID, Visited(Everything(table), pageSize));
    out := Finished(t, tableID, tally);
  }

  lemma SplitFold(t: Text, s: Tally, es: seq<Evidence>, n: nat)
    requires n <= |es|
    ensures Fold(t, s, es) == Fold(t, Fold(t, s, es[..n]), es[n..])
  {
    assert es == es[..n] + es[n..];
    FoldConcat(t, s, es[..n], es[n..]);
  }

  /** The record is that of all the evidence exactly if the page size is one the provider
      honours, as every caller's is, or everything fits in the provider's default page. */
  lemma WholeIffPageHonoured(t: Text, tableID: Bytes, es: seq<Evidence>, pageSize: int)
    ensures ArchiveOf(t, tableID, Visited(es, pageSize)) == ArchiveOf(t, tableID, es) <==> pageSize <= 5000 || |es| <= 512
  {
    if |es| <= DEFAULT_LIMIT {
      assert es[..|es|] == es;
    }
    assert ArchiveOf(t, tableID, Visited(es, pageSize)).total == |Visited(es, pageSize)|;
  }

  // ----- what the record of a table means

  lemma {:induction false} CountsAddUp(es: seq<Evidence>)
    ensures Count(Covered, es) + Count(Missing, es) == |es|
    ensures Count(Success, es) + Count(Mismatch, es) + Count(Error, es) <= Count(Covered, es)
  {
    if es != [] {
      CountsAddUp(es[..|es| - 1]);
      StatusesDiffer();
    }
  }

  /** The earliest nonzero start and the latest finish of validated chunks. */
  ghost predicate Spans(es: seq<Evidence>, first: int, last: int) {
    && (first == NO_TIME ==> forall e | e in es && Is(Covered, e) :: e.startedAt == NO_TIME)
    && (first != NO_TIME ==>
          && (exists e :: e in es && Is(Covered, e) && e.startedAt == first)
          && forall e | e in es && Is(Covered, e) && e.startedAt != NO_TIME :: first <= e.startedAt)
    && (forall e | e in es && Is(Covered, e) :: e.finishedAt <= last)
    && (last == NO_TIME || exists e :: e in es && Is(Covered, e) && e.finishedAt == last)
  }

  lemma {:induction false} TimesSpan(es: seq<Evidence>)
    ensures Spans(es, FirstStart(es), LastFinish(es))
  {
    if es != [] {
      var before, e := es[..|es| - 1], es[|es| - 1];
      TimesSpan(before);
      assert es == before + [e];
      assert forall x :: x in es <==> x in before || x == e;
    }
  }

  /** Validated rows in order. */
  function CoveredOf(es: seq<Evidence>): seq<Evidence> {
    if es == [] then []
    else if Is(Covered, es[|es| - 1]) then CoveredOf(es[..|es| - 1]) + [es[|es| - 1]]
    else CoveredOf(es[..|es| - 1])
  }

  lemma {:induction false} PartsOfUniform(t: Text, es: seq<Evidence>, complex: bool)
    requires forall i | 0 <= i < |es| :: IsComplex(t, es[i].splitType) == complex
    ensures AnyComplex(t, es) <==> complex && es != []
    ensures SimplePart(t, es) == (if complex then [] else CoveredOf(es))
    ensures UnionPart(t, es) == (if complex then CoveredOf(es) else [])
  {
    if es != [] {
      assert es[|es| - 1].splitType == es[|es| - 1].splitType;
      PartsOfUniform(t, es[..|es| - 1], complex);
    }
  }

  /** Totals of tables whose splits are all simple (summed) or all complex (every
      validation saw the whole table, so one result stands for all, if they agree). */
  lemma UniformTotals(t: Text, tableID: Bytes, es: seq<Evidence>, complex: bool)
    requires es != [] && forall i | 0 <= i < |es| :: IsComplex(t, es[i].splitType) == complex
    ensures var a, rows := ArchiveOf(t, tableID, es), CoveredOf(es);
            && (!complex ==> a.scope == ChunkSet && a.sourceRows == SourceSum(rows) && a.targetRows == TargetSum(rows))
            && (complex ==> (a.scope == TableUnion <==> rows != [] && Agree(rows)))
            && (complex && a.scope == TableUnion ==>
                  forall i | 0 <= i < |rows| ::
                    && a.sourceRows == rows[i].sourceRows && a.targetRows == rows[i].targetRows
                    && a.sourceChecksum == rows[i].sourceChecksum && a.targetChecksum == rows[i].targetChecksum)
  {
    PartsOfUniform(t, es, complex);
  }

  // ----- the digest identifies the evidence

  ghost predicate TimesReadable(t: Text) {
    (forall a | a != NO_TIME :: t.timeText(a) != [])
    && forall a, b | a != NO_TIME && b != NO_TIME && t.timeText(a) == t.timeText(b) :: a == b
  }

  lemma EvidenceFieldsUnique(t: Text, a: Evidence, b: Evidence)
    requires TimesReadable(t) && EvidenceFields(t, a) == EvidenceFields(t, b)
    ensures a == b
  {
    var x, y := EvidenceFields(t, a), EvidenceFields(t, b);
    assert forall i | 0 <= i < 12 :: x[i] == y[i];
    assert x[0] == y[0] && x[1] == y[1] && x[2] == y[2] && x[3] == y[3] && x[4] == y[4] && x[5] == y[5];
    assert x[6] == y[6] && x[7] == y[7] && x[8] == y[8] && x[9] == y[9] && x[10] == y[10] && x[11] == y[11];
    IntTextIsUnique(a.chunkNo, b.chunkNo);
    IntTextIsUnique(a.sourceRows, b.sourceRows);
    IntTextIsUnique(a.targetRows, b.targetRows);
  }

  function Flatten(blocks: seq<seq<Bytes>>): seq<Bytes> {
    if blocks == [] then [] else Flatten(blocks[..|blocks| - 1]) + blocks[|blocks| - 1]
  }

  ghost predicate AllWide(blocks: seq<seq<Bytes>>, width: nat) {
    forall i | 0 <= i < |blocks| :: |blocks[i]| == width
  }

  lemma {:induction false} FlattenLength(blocks: seq<seq<Bytes>>, width: nat)
    requires AllWide(blocks, width)
    ensures |Flatten(blocks)| == width * |blocks|
  {
    if blocks != [] {
      FlattenLength(blocks[..|blocks| - 1], width);
      assert width * |blocks| == width * (|blocks| - 1) + width;
    }
  }

  lemma SplitTail(p: seq<Bytes>, x: seq<Bytes>, q: seq<Bytes>, y: seq<Bytes>)
    requires p + x == q + y && |x| == |y|
    ensures p == q && x == y
  {
    assert p == (p + x)[..|p|] && q == (q + y)[..|q|];
    assert x == (p + x)[|p|..] && y == (q + y)[|q|..];
  }

  lemma SameNumber(width: nat, m: nat, n: nat)
    requires width > 0 && width * m == width * n
    ensures m == n
  {
  }

  /** Blocks of one width can be told apart after they have been run together. */
  lemma {:induction false} FlattenUnique(a: seq<seq<Bytes>>, b: seq<seq<Bytes>>, width: nat)
    requires width > 0 && AllWide(a, width) && AllWide(b, width) && Flatten(a) == Flatten(b)
    ensures a == b
  {
    FlattenLength(a, width);
    FlattenLength(b, width);
    SameNumber(width, |a|, |b|);
    if a != [] {
      var p, q := a[..|a| - 1], b[..|b| - 1];
      SplitTail(Flatten(p), a[|a| - 1], Flatten(q), b[|b| - 1]);
      FlattenUnique(p, q, width);
      assert a == p + [a[|a| - 1]] && b == q + [b[|b| - 1]];
    }
  }

  function Blocks(t: Text, es: seq<Evidence>): seq<seq<Bytes>> {
    seq(|es|, i requires 0 <= i < |es| => EvidenceFields(t, es[i]))
  }

  lemma {:induction false} AllFieldsFlatten(t: Text, es: seq<Evidence>)
    ensures AllFields(t, All, es) == Flatten(Blocks(t, es))
  {
    if es != [] {
      AllFieldsFlatten(t, es[..|es| - 1]);
      assert Blocks(t, es)[..|es| - 1] == Blocks(t, es[..|es| - 1]);
    }
  }

  lemma AllFieldsUnique(t: Text, a: seq<Evidence>, b: seq<Evidence>)
    requires TimesReadable(t) && AllFields(t, All, a) == AllFields(t, All, b)
    ensures a == b
  {
    AllFieldsFlatten(t, a);
    AllFieldsFlatten(t, b);
    FlattenUnique(Blocks(t, a), Blocks(t, b), 12);
    assert |Blocks(t, a)| == |a| && |Blocks(t, b)| == |b|;
    forall i | 0 <= i < |a| ensures a[i] == b[i] {
      assert Blocks(t, a)[i] == Blocks(t, b)[i];
      EvidenceFieldsUnique(t, a[i], b[i]);
    }
  }

  /** Two tables have the same evidence digest only if they have the same evidence, unless
      SHA-256 collides on the two inputs. */
  lemma DigestIdentifiesEvidence(t: Text, tableA: Bytes, tableB: Bytes, a: seq<Evidence>, b: seq<Evidence>)
    requires TimesReadable(t)
    requires var x, y := FieldsBytes(AllFields(t, All, a)), FieldsBytes(AllFields(t, All, b)); t.sha(x) == t.sha(y) ==> x == y
    ensures ArchiveOf(t, tableA, a).evidenceDigest == ArchiveOf(t, tableB, b).evidenceDigest <==> a == b
  {
    if ArchiveOf(t, tableA, a).evidenceDigest == ArchiveOf(t, tableB, b).evidenceDigest {
      FieldsAreUnique(AllFields(t, All, a), AllFields(t, All, b));
      AllFieldsUnique(t, a, b);
    }
  }
}
