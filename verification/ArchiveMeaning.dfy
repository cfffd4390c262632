/** What the records of an archive say about the evidence, without the functions they are
    computed by. */
module ArchiveMeaning {
  import opened Wrappers
  import opened Keys
  import opened Reading
  import opened Encoding
  import opened HotPath
  import opened Sorting
  import opened ValidationArchives
  import opened TaskArchives

  // ----- counting

  function Indices(kind: Kind, es: seq<Evidence>): set<int> {
    set i | 0 <= i < |es| && Is(kind, es[i])
  }

  lemma {:induction false} CountIsCardinality(kind: Kind, es: seq<Evidence>)
    ensures Count(kind, es) == |Indices(kind, es)|
  {
    if es != [] {
      CountIsCardinality(kind, es[..|es| - 1]);
      LastIndex(kind, es, |es| - 1);
    }
  }

  lemma LastIndex(kind: Kind, es: seq<Evidence>, last: int)
    requires 0 <= last == |es| - 1
    ensures Indices(kind, es) == Indices(kind, es[..last]) + if Is(kind, es[last]) then {last} else {}
    ensures last !in Indices(kind, es[..last])
  {
  }

  /** The counts of a table's record: the chunks with and without a validation, and the
      validated ones by the text of their outcome. */
  lemma RecordCounts(t: Text, tableID: Bytes, es: seq<Evidence>)
    ensures var a := ArchiveOf(t, tableID, es);
            && a.tableID == tableID && a.total == |es|
            && a.covered == |set i | 0 <= i < |es| && es[i].validationID != []|
            && a.missing == |set i | 0 <= i < |es| && es[i].validationID == []|
            && a.success == |set i | 0 <= i < |es| && es[i].validationID != [] && es[i].status == Ascii("SUCCESS")|
            && a.mismatch == |set i | 0 <= i < |es| && es[i].validationID != [] && es[i].status == Ascii("MISMATCH")|
            && a.errors == |set i | 0 <= i < |es| && es[i].validationID != [] && es[i].status == Ascii("ERROR")|
  {
    CountIsCardinality(Covered, es);
    CountIsCardinality(Missing, es);
    CountIsCardinality(Success, es);
    CountIsCardinality(Mismatch, es);
    CountIsCardinality(Error, es);
    assert Indices(Covered, es) == set i | 0 <= i < |es| && es[i].validationID != [];
    assert Indices(Missing, es) == set i | 0 <= i < |es| && es[i].validationID == [];
    assert Indices(Success, es) == set i | 0 <= i < |es| && es[i].validationID != [] && es[i].status == Ascii("SUCCESS");
    assert Indices(Mismatch, es) == set i | 0 <= i < |es| && es[i].validationID != [] && es[i].status == Ascii("MISMATCH");
    assert Indices(Error, es) == set i | 0 <= i < |es| && es[i].validationID != [] && es[i].status == Ascii("ERROR");
  }

  /** The texts byte by byte. */
  lemma OutcomeTexts()
    ensures Ascii("SUCCESS") == [83, 85, 67, 67, 69, 83, 83]
    ensures Ascii("MISMATCH") == [77, 73, 83, 77, 65, 84, 67, 72]
    ensures Ascii("ERROR") == [69, 82, 82, 79, 82]
  {
  }

  // ----- scope and totals

  /** A split by integer ranges of the primary key. */
  predicate RangeSplit(t: Text, e: Evidence) {
    || t.upper(e.splitType) == Ascii("PRIMARY_KEY_RANGE")
    || t.upper(e.splitType) == Ascii("PK_RANGE")
    || t.upper(e.splitType) == Ascii("PK_RANGE_ADAPTIVE")
  }

  /** Validated rows in order. */
  function Validated(es: seq<Evidence>): seq<Evidence> {
    if es == [] then []
    else
      var before, e := es[..|es| - 1], es[|es| - 1];
      if e.validationID != [] then Validated(before) + [e] else Validated(before)
  }

  /** All rows have the result of the first one. */
  predicate OneResult(es: seq<Evidence>) {
    forall i | 0 <= i < |es| ::
      && es[i].sourceRows == es[0].sourceRows && es[i].targetRows == es[0].targetRows
      && es[i].sourceChecksum == es[0].sourceChecksum && es[i].targetChecksum == es[0].targetChecksum
  }

  lemma {:induction false} ComplexMeaning(t: Text, es: seq<Evidence>)
    ensures AnyComplex(t, es) <==> exists i :: 0 <= i < |es| && !RangeSplit(t, es[i])
  {
    if es != [] {
      var before := es[..|es| - 1];
      ComplexMeaning(t, before);
      if i :| 0 <= i < |es| && !RangeSplit(t, es[i]) {
        assert i == |es| - 1 || before[i] == es[i];
      }
    }
  }

  /** The position of the first row that is no range split, or the number of rows. */
  ghost predicate SwitchesAt(t: Text, es: seq<Evidence>, k: nat) {
    && k <= |es| && (k < |es| ==> !RangeSplit(t, es[k]))
    && forall i | 0 <= i < k :: RangeSplit(t, es[i])
  }

  lemma PartsNext(t: Text, es: seq<Evidence>, e: Evidence, complex: bool)
    requires AnyComplex(t, es + [e]) == complex
    ensures SimplePart(t, es + [e]) == if e.validationID != [] && !complex then SimplePart(t, es) + [e] else SimplePart(t, es)
    ensures UnionPart(t, es + [e]) == if e.validationID != [] && complex then UnionPart(t, es) + [e] else UnionPart(t, es)
  {
    assert (es + [e])[..|es|] == es;
  }

  lemma BeginsComplex(t: Text, a: seq<Evidence>, b: seq<Evidence>)
    requires b != [] && !RangeSplit(t, b[0])
    ensures AnyComplex(t, a + b)
  {
    assert (a + b)[|a|] == b[0];
    ComplexMeaning(t, a + b);
  }

  lemma {:induction false} SimpleParts(t: Text, a: seq<Evidence>)
    requires forall i | 0 <= i < |a| :: RangeSplit(t, a[i])
    ensures SimplePart(t, a) == Validated(a) && UnionPart(t, a) == []
  {
    if a != [] {
      SimpleParts(t, a[..|a| - 1]);
      ComplexMeaning(t, a);
    }
  }

  lemma {:induction false} PartsMeaning(t: Text, a: seq<Evidence>, b: seq<Evidence>)
    requires forall i | 0 <= i < |a| :: RangeSplit(t, a[i])
    requires b != [] ==> !RangeSplit(t, b[0])
    ensures SimplePart(t, a + b) == Validated(a) && UnionPart(t, a + b) == Validated(b)
    decreases |b|
  {
    if b == [] {
      SimpleParts(t, a);
      assert a + b == a;
    } else {
      var before, e := b[..|b| - 1], b[|b| - 1];
      PartsMeaning(t, a, before);
      BeginsComplex(t, a, b);
      assert a + b == (a + before) + [e] && b == before + [e];
      PartsStep(t, a, before, e);
    }
  }

  lemma PartsStep(t: Text, a: seq<Evidence>, before: seq<Evidence>, e: Evidence)
    requires SimplePart(t, a + before) == Validated(a) && UnionPart(t, a + before) == Validated(before)
    requires AnyComplex(t, (a + before) + [e])
    ensures SimplePart(t, (a + before) + [e]) == Validated(a)
    ensures UnionPart(t, (a + before) + [e]) == Validated(before + [e])
  {
    PartsNext(t, a + before, e, true);
    assert (before + [e])[..|before|] == before;
  }

  /** Scope and totals of a table's record, wherever the evidence switches from range splits to
      others: sums over the range splits, or one result that all later rows agree on. */
  lemma RecordTotals(t: Text, tableID: Bytes, es: seq<Evidence>, k: nat)
    requires SwitchesAt(t, es, k)
    ensures var a, simple, union := ArchiveOf(t, tableID, es), Validated(es[..k]), Validated(es[k..]);
            && (a.scope == ChunkSet <==> k == |es|)
            && (a.scope == TableUnion <==> k < |es| && union != [] && OneResult(union))
            && (if a.scope == TableUnion then
                  && a.sourceRows == union[0].sourceRows && a.targetRows == union[0].targetRows
                  && a.sourceChecksum == union[0].sourceChecksum && a.targetChecksum == union[0].targetChecksum
                else
                  && a.sourceRows == SourceSum(simple) && a.targetRows == TargetSum(simple)
                  && a.sourceChecksum == [] && a.targetChecksum == [])
  {
    ComplexMeaning(t, es);
    PartsMeaning(t, es[..k], es[k..]);
    assert es[..k] + es[k..] == es;
    OneResultIsAgree(Validated(es[k..]));
  }

  lemma OneResultIsAgree(es: seq<Evidence>)
    ensures Agree(es) <==> OneResult(es)
  {
    if Agree(es) {
      forall i | 0 <= i < |es|
        ensures && es[i].sourceRows == es[0].sourceRows && es[i].targetRows == es[0].targetRows
                && es[i].sourceChecksum == es[0].sourceChecksum && es[i].targetChecksum == es[0].targetChecksum
      {
        assert Same(es[0], es[i]);
      }
    }
  }

  lemma SumsMeaning(es: seq<Evidence>, e: Evidence)
    ensures SourceSum([]) == 0 && TargetSum([]) == 0
    ensures SourceSum(es + [e]) == SourceSum(es) + e.sourceRows && TargetSum(es + [e]) == TargetSum(es) + e.targetRows
  {
    SumNext(es, e);
  }

  // ----- digests

  /** What one more row adds to the three digests of a table: all of its fields to the first,
      and its results, if it was validated, to the ones of source and target. */
  lemma RecordDigests(t: Text, tableID: Bytes, es: seq<Evidence>, e: Evidence, started: Bytes, finished: Bytes)
    requires started == if e.startedAt == 0 then [] else t.timeText(e.startedAt)
    requires finished == if e.finishedAt == 0 then [] else t.timeText(e.finishedAt)
    ensures forall side :: AllFields(t, side, []) == []
    ensures AllFields(t, All, es + [e]) == AllFields(t, All, es)
              + [e.chunkID, IntText(e.chunkNo), e.splitType, e.validationID, e.status, IntText(e.sourceRows),
                 IntText(e.targetRows), e.sourceChecksum, e.targetChecksum, e.lastError, started, finished]
    ensures AllFields(t, Source, es + [e])
            == AllFields(t, Source, es) + if e.validationID == [] then [] else [e.chunkID, IntText(e.sourceRows), e.sourceChecksum]
    ensures AllFields(t, Target, es + [e])
            == AllFields(t, Target, es) + if e.validationID == [] then [] else [e.chunkID, IntText(e.targetRows), e.targetChecksum]
    ensures var a := ArchiveOf(t, tableID, es);
            && a.evidenceDigest == t.sha(FieldsBytes(AllFields(t, All, es)))
            && a.sourceDigest == t.sha(FieldsBytes(AllFields(t, Source, es)))
            && a.targetDigest == t.sha(FieldsBytes(AllFields(t, Target, es)))
  {
    assert (es + [e])[..|es|] == es;
  }

  // ----- pages

  /** The provider serves 512 rows unless it is asked for one to 5000. */
  lemma PagesServed(limit: int)
    ensures PageLimit(limit) == if 1 <= limit <= 5000 then limit else 512
  {
  }

  /** The loop starts in front of every chunk whose number is not negative. */
  lemma StartsInFront(table: seq<Keyed<Evidence>>, e: Evidence)
    requires Indexed(table) && e.chunkNo >= 0
    ensures e in Everything(table) <==> exists i :: 0 <= i < |table| && table[i].item == e
  {
    var all := Select(table, UNBOUNDED, ChunkKey(-1, []));
    SelectMembers(table, UNBOUNDED, ChunkKey(-1, []));
    EvidenceOfLength(all);
    if i :| 0 <= i < |table| && table[i].item == e {
      ChunkKeyOrder(-1, [], e.chunkNo, e.chunkID);
      assert table[i] in all;
      var j :| 0 <= j < |all| && all[j] == table[i];
      assert Everything(table)[j] == e;
    }
    if e in Everything(table) {
      var j :| 0 <= j < |Everything(table)| && Everything(table)[j] == e;
      assert all[j] in table;
    }
  }

  // ----- tasks

  /** An archive is made of a task that has ended, one way or another. */
  lemma TerminalMeaning(status: Bytes)
    ensures Terminal(status) <==>
              || status == [70, 73, 78, 73, 83, 72, 69, 68]
              || status == [70, 65, 73, 76, 69, 68]
              || status == [67, 65, 78, 67, 69, 76, 76, 69, 68]
              || status == [82, 79, 76, 76, 69, 68, 95, 66, 65, 67, 75]
  {
    assert Ascii("FINISHED") == [70, 73, 78, 73, 83, 72, 69, 68];
    assert Ascii("FAILED") == [70, 65, 73, 76, 69, 68];
    assert Ascii("CANCELLED") == [67, 65, 78, 67, 69, 76, 76, 69, 68];
    assert Ascii("ROLLED_BACK") == [82, 79, 76, 76, 69, 68, 95, 66, 65, 67, 75];
  }

  /** One more record in the archive of a task. */
  lemma TaskRecord(t: Text, task: Task, records: seq<TableArchive>, a: TableArchive)
    ensures var before, after := Assembled(t, task, records), Assembled(t, task, records + [a]);
            && after.task == task && after.tables == records + [a] && after.totalTables == |records| + 1
            && after.totals.chunks == before.totals.chunks + a.total
            && after.totals.covered == before.totals.covered + a.covered
            && after.totals.success == before.totals.success + a.success
            && after.totals.mismatch == before.totals.mismatch + a.mismatch
            && after.totals.errors == before.totals.errors + a.errors
            && after.totals.missing == before.totals.missing + a.missing
    ensures TaskFields(task, records + [a]) == TaskFields(task, records) + [a.tableID, a.evidenceDigest]
    ensures Assembled(t, task, []) == TaskArchive(task, [], 0, Totals(0, 0, 0, 0, 0, 0), t.sha(FieldsBytes(
              [task.id, task.status, task.mode, task.barrierType, task.barrierPosition, task.barrierResource])))
    ensures Assembled(t, task, records).digest == t.sha(FieldsBytes(TaskFields(task, records)))
  {
    TotalsNext(records, a);
    assert (records + [a])[..|records|] == records;
  }

  /** Which tables get a record, in their order. */
  lemma TablesRecorded(t: Text, store: EvidenceStore, ids: seq<Bytes>, id: Bytes)
    ensures Records(t, store, []) == []
    ensures Records(t, store, ids + [id]) == Records(t, store, ids)
              + if id in store && Everything(store[id]) != [] then [ArchiveOf(t, id, Everything(store[id]))] else []
  {
    assert (ids + [id])[..|ids|] == ids;
    if id !in store {
      assert Everything([]) == [];
    }
  }

  /** No chunk has been validated. */
  ghost predicate NothingValidated(es: seq<Evidence>) {
    forall i | 0 <= i < |es| :: es[i].validationID == []
  }

  lemma {:induction false} NothingCounted(es: seq<Evidence>)
    ensures Count(Covered, es) == 0 <==> NothingValidated(es)
  {
    if es != [] {
      var before := es[..|es| - 1];
      NothingCounted(before);
      if NothingValidated(before) && es[|es| - 1].validationID == [] {
        assert forall i | 0 <= i < |es| - 1 :: es[i] == before[i];
      }
    }
  }

  ghost predicate NoEvidenceFor(store: EvidenceStore, ids: seq<Bytes>) {
    forall i | 0 <= i < |ids| :: NoEvidenceOf(store, ids[i])
  }

  ghost predicate NoEvidenceOf(store: EvidenceStore, id: Bytes) {
    id in store ==> NothingValidated(Everything(store[id]))
  }

  lemma NoneOfTable(store: EvidenceStore, id: Bytes)
    ensures NoEvidenceOf(store, id) <==> Count(Covered, Everything(TableEvidence(store, id))) == 0
  {
    NothingCounted(Everything(TableEvidence(store, id)));
    if id !in store {
      assert Everything([]) == [];
    }
  }

  lemma OneMoreTable(store: EvidenceStore, ids: seq<Bytes>)
    requires ids != []
    ensures NoEvidenceFor(store, ids) <==> NoEvidenceFor(store, ids[..|ids| - 1]) && NoEvidenceOf(store, ids[|ids| - 1])
  {
    var before := ids[..|ids| - 1];
    assert forall i | 0 <= i < |before| :: before[i] == ids[i];
  }

  lemma PlusCovered(sum: Totals, es: seq<Evidence>)
    ensures Plus(sum, CountsOf(es)).covered == sum.covered + Count(Covered, es)
  {
  }

  lemma MoreCovered(store: EvidenceStore, ids: seq<Bytes>)
    requires ids != []
    ensures EvidenceTotals(store, ids).covered
            == EvidenceTotals(store, ids[..|ids| - 1]).covered + Count(Covered, Everything(TableEvidence(store, ids[|ids| - 1])))
  {
    var sum, es := EvidenceTotals(store, ids[..|ids| - 1]), Everything(TableEvidence(store, ids[|ids| - 1]));
    PlusCovered(sum, es);
    assert EvidenceTotals(store, ids) == Plus(sum, CountsOf(es));
  }

  lemma {:induction false} NoEvidenceCounted(store: EvidenceStore, ids: seq<Bytes>)
    ensures EvidenceTotals(store, ids).covered == 0 <==> NoEvidenceFor(store, ids)
  {
    if ids != [] {
      NoEvidenceCounted(store, ids[..|ids| - 1]);
      NoneOfTable(store, ids[|ids| - 1]);
      OneMoreTable(store, ids);
      MoreCovered(store, ids);
    }
  }

  /** A task is archived from its evidence, unless no chunk of any of its tables has been
      validated; then from its bare results. */
  lemma LegacyIffNothingValidated(t: Text, task: Task, store: EvidenceStore, tables: seq<Keyed<Bytes>>,
                                  legacy: Result<TaskArchive, Failure>)
    ensures var ids := Ids(SortByKey(tables));
            Proposed(t, task, store, tables, legacy)
            == if NoEvidenceFor(store, ids) then legacy else Ok(Assembled(t, task, Records(t, store, ids)))
  {
    TotalsAddUp(t, store, Ids(SortByKey(tables)));
    NoEvidenceCounted(store, Ids(SortByKey(tables)));
  }

  /** The tables are taken in the order of their ids, none left out and none added. */
  lemma {:induction false} IdsInOrder(tables: seq<Keyed<Bytes>>)
    ensures |Ids(tables)| == |tables| && forall i | 0 <= i < |tables| :: Ids(tables)[i] == tables[i].item
  {
    if tables != [] {
      IdsInOrder(tables[1..]);
    }
  }

  lemma SameTables(tables: seq<Keyed<Bytes>>)
    requires DistinctKeys(tables)
    ensures Sorted(SortByKey(tables)) && multiset(SortByKey(tables)) == multiset(tables)
  {
    SortKeepsMembers(tables);
    SortSorts(tables);
  }
}
