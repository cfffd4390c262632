/** The archive of a whole task: the records of its tables in id order with their totals
    and a digest over all of them, stored at most once. */
module TaskArchives {
  import opened Wrappers
  import opened Keys
  import opened Reading
  import opened Encoding
  import opened Sorting
  import opened HotPath
  import opened ValidationArchives

  datatype Task = Task(id: Bytes, status: Bytes, mode: Bytes, barrierType: Bytes, barrierPosition: Bytes, barrierResource: Bytes)

  datatype Totals = Totals(chunks: nat, covered: nat, success: nat, mismatch: nat, errors: nat, missing: nat)

  datatype TaskArchive = TaskArchive(task: Task, tables: seq<TableArchive>, totalTables: nat, totals: Totals, digest: Bytes)

  datatype Failure = NotTerminal | NoEvidence

  type EvidenceStore = map<Bytes, seq<Keyed<Evidence>>>

  predicate Terminal(status: Bytes) {
    status == Ascii("FINISHED") || status == Ascii("FAILED") || status == Ascii("CANCELLED") || status == Ascii("ROLLED_BACK")
  }

  function TableEvidence(store: EvidenceStore, id: Bytes): seq<Keyed<Evidence>> {
    if id in store then store[id] else []
  }

  /** The records of the tables that have evidence. */
  function Records(t: Text, store: EvidenceStore, ids: seq<Bytes>): seq<TableArchive> {
    if ids == [] then []
    else
      var before, id := Records(t, store, ids[..|ids| - 1]), ids[|ids| - 1];
      var es := Everything(TableEvidence(store, id));
      if es == [] then before else before + [ArchiveOf(t, id, es)]
  }

  function AddTable(sum: Totals, a: TableArchive): Totals {
    Totals(sum.chunks + a.total, sum.covered + a.covered, sum.success + a.success, sum.mismatch + a.mismatch,
           sum.errors + a.errors, sum.missing + a.missing)
  }

  function TotalsOf(records: seq<TableArchive>): Totals {
    if records == [] then Totals(0, 0, 0, 0, 0, 0)
    else AddTable(TotalsOf(records[..|records| - 1]), records[|records| - 1])
  }

  function Header(task: Task): seq<Bytes> {
    [task.id, task.status, task.mode, task.barrierType, task.barrierPosition, task.barrierResource]
  }

  function TaskFields(task: Task, records: seq<TableArchive>): seq<Bytes> {
    if records == [] then Header(task)
    else
      var last := records[|records| - 1];
      TaskFields(task, records[..|records| - 1]) + [last.tableID, last.evidenceDigest]
  }

  function Assembled(t: Text, task: Task, records: seq<TableArchive>): TaskArchive {
    TaskArchive(task, records, |records|, TotalsOf(records), t.sha(FieldsBytes(TaskFields(task, records))))
  }

  /** The variables of the loop over tables. */
  datatype Draft = Draft(tables: seq<TableArchive>, totalTables: nat, totals: Totals, taskHash: Bytes)

  function Drafted(task: Task, records: seq<TableArchive>): Draft {
    Draft(records, |records|, TotalsOf(records), FieldsBytes(TaskFields(task, records)))
  }

  method AddRecord(task: Task, d: Draft, a: TableArchive) returns (out: Draft)
    requires d == Drafted(task, d.tables)
    ensures out == Drafted(task, d.tables + [a])
  {
    assert (d.tables + [a])[..|d.tables|] == d.tables;
    FieldsConcat(TaskFields(task, d.tables), [a.tableID, a.evidenceDigest]);
    out := d.(tables := d.tables + [a], totalTables := d.totalTables + 1);
    out := out.(totals := Totals(d.totals.chunks + a.total, d.totals.covered + a.covered, d.totals.success + a.success,
                                 d.totals.mismatch + a.mismatch, d.totals.errors + a.errors, d.totals.missing + a.missing));
    var taskHash := DigestFields(d.taskHash, [a.tableID, a.evidenceDigest]);
    out := out.(taskHash := taskHash);
  }

  lemma NextRecords(t: Text, store: EvidenceStore, ids: seq<Bytes>, i: nat)
    requires i < |ids|
    ensures var before, es := Records(t, store, ids[..i]), Everything(TableEvidence(store, ids[i]));
            Records(t, store, ids[..i + 1]) == if es == [] then before else before + [ArchiveOf(t, ids[i], es)]
  {
    assert ids[..i + 1][..i] == ids[..i];
  }

  /** Archives the tables one after the other. */
  method BuildTaskArchive(t: Text, task: Task, store: EvidenceStore, ids: seq<Bytes>, pageSize: int) returns (out: TaskArchive)
    requires 1 <= pageSize <= MAX_PAGE && forall id | id in store :: Indexed(store[id])
    ensures out == Assembled(t, task, Records(t, store, ids))
  {
    var taskHash := DigestFields([], Header(task));
    var d := Draft([], 0, Totals(0, 0, 0, 0, 0, 0), taskHash);
    for i := 0 to |ids|
      invariant d.tables == Records(t, store, ids[..i]) && d == Drafted(task, d.tables)
    {
      NextRecords(t, store, ids, i);
      var a := BuildTableArchive(t, ids[i], TableEvidence(store, ids[i]), pageSize);
      if a.total == 0 {
        continue;
      }
      d := AddRecord(task, d, a);
    }
    assert ids[..|ids|] == ids;
    out := TaskArchive(task, d.tables, d.totalTables, d.totals, t.sha(d.taskHash));
  }

  function Ids(tables: seq<Keyed<Bytes>>): seq<Bytes> {
    if tables == [] then [] else [tables[0].item] + Ids(tables[1..])
  }

  /** What a creator wants to store: the archive of the evidence, or the legacy archive
      when no chunk has any. */
  function Proposed(t: Text, task: Task, store: EvidenceStore, tables: seq<Keyed<Bytes>>, legacy: Result<TaskArchive, Failure>)
    : Result<TaskArchive, Failure>
  {
    var a := Assembled(t, task, Records(t, store, Ids(SortByKey(tables))));
    if a.totals.covered == 0 then legacy else Ok(a)
  }

  class Repository {
    const text: Text
    const task: Task
    const tables: seq<Keyed<Bytes>>
    const store: EvidenceStore
    var stored: Option<TaskArchive>

    /** Insert if absent. */
    method CreateValidationArchive(a: TaskArchive) returns (created: bool)
      modifies this`stored
      ensures created == old(stored).None? && stored == (if created then Some(a) else old(stored))
    {
      created := stored.None?;
      if created {
        stored := Some(a);
      }
    }

    /** Creates the archive unless there is one. `rival` is what another creator stores
        while this one is building; `legacy` is the fallback built from bare results. An
        archive once stored never changes, everyone gets the stored one, and what is
        stored does not depend on the page size or on the order tables are listed in. */
    method EnsureValidationArchive(pageSize: int, rival: Option<TaskArchive>, legacy: Result<TaskArchive, Failure>)
      returns (r: Result<(Option<TaskArchive>, bool), Failure>)
      requires forall id | id in store :: Indexed(store[id])
      modifies this`stored
      ensures old(stored).Some? ==> stored == old(stored) && r == Ok((stored, false))
      ensures old(stored).None? && !Terminal(task.status) ==> stored == None && r == Err(NotTerminal)
      ensures old(stored).None? && Terminal(task.status) ==>
                match Proposed(text, task, store, tables, legacy)
                case Err(e) => stored == rival && r == Err(e)
                case Ok(a) => stored == (if rival.Some? then rival else Some(a)) && r == Ok((stored, rival.None?))
    {
      if stored.Some? {
        return Ok((stored, false));
      }
      if !Terminal(task.status) {
        return Err(NotTerminal);
      }
      var size := pageSize;
      if size <= 0 || size > MAX_PAGE {
        size := 512;
      }
      var archive := BuildTaskArchive(text, task, store, Ids(SortByKey(tables)), size);
      stored := rival;
      if archive.totals.covered == 0 {
        if legacy.Err? {
          return Err(legacy.error);
        }
        archive := legacy.value;
      }
      var created := CreateValidationArchive(archive);
      if !created {
        return Ok((stored, false));
      }
      return Ok((Some(archive), true));
    }
  }

  // ----- what the archive of a task means

  function CountsOf(es: seq<Evidence>): Totals {
    Totals(|es|, Count(Covered, es), Count(Success, es), Count(Mismatch, es), Count(Error, es), Count(Missing, es))
  }

  function Plus(a: Totals, b: Totals): Totals {
    Totals(a.chunks + b.chunks, a.covered + b.covered, a.success + b.success, a.mismatch + b.mismatch,
           a.errors + b.errors, a.missing + b.missing)
  }

  /** Counts over the evidence of all tables, whether or not they have a record. */
  function EvidenceTotals(store: EvidenceStore, ids: seq<Bytes>): Totals {
    if ids == [] then Totals(0, 0, 0, 0, 0, 0)
    else Plus(EvidenceTotals(store, ids[..|ids| - 1]), CountsOf(Everything(TableEvidence(store, ids[|ids| - 1]))))
  }

  lemma TotalsNext(records: seq<TableArchive>, a: TableArchive)
    ensures TotalsOf(records + [a]) == AddTable(TotalsOf(records), a)
  {
    assert (records + [a])[..|records|] == records;
  }

  predicate AddsUp(sum: Totals) {
    sum.chunks == sum.covered + sum.missing && sum.success + sum.mismatch + sum.errors <= sum.covered
  }

  lemma {:induction false} EvidenceAddsUp(store: EvidenceStore, ids: seq<Bytes>)
    ensures AddsUp(EvidenceTotals(store, ids))
  {
    if ids != [] {
      EvidenceAddsUp(store, ids[..|ids| - 1]);
      CountsAddUp(Everything(TableEvidence(store, ids[|ids| - 1])));
    }
  }

  lemma AddArchive(t: Text, id: Bytes, es: seq<Evidence>, sum: Totals)
    ensures AddTable(sum, ArchiveOf(t, id, es)) == Plus(sum, CountsOf(es))
    ensures es == [] ==> Plus(sum, CountsOf(es)) == sum
  {
  }

  /** Task totals are sums over all evidence of all tables. */
  lemma {:induction false} TotalsAddUp(t: Text, store: EvidenceStore, ids: seq<Bytes>)
    ensures TotalsOf(Records(t, store, ids)) == EvidenceTotals(store, ids)
    ensures AddsUp(TotalsOf(Records(t, store, ids)))
  {
    EvidenceAddsUp(store, ids);
    if ids != [] {
      var before, id := ids[..|ids| - 1], ids[|ids| - 1];
      var records, es := Records(t, store, before), Everything(TableEvidence(store, id));
      TotalsAddUp(t, store, before);
      AddArchive(t, id, es, TotalsOf(records));
      TotalsNext(records, ArchiveOf(t, id, es));
    }
  }

  lemma {:induction false} TaskFieldsLength(task: Task, records: seq<TableArchive>)
    ensures |TaskFields(task, records)| == 6 + 2 * |records|
    ensures TaskFields(task, records)[..6] == Header(task)
  {
    if records != [] {
      TaskFieldsLength(task, records[..|records| - 1]);
    }
  }

  lemma {:induction false} TaskFieldsUnique(a: Task, b: Task, x: seq<TableArchive>, y: seq<TableArchive>)
    requires TaskFields(a, x) == TaskFields(b, y)
    ensures a == b && |x| == |y|
    ensures forall i | 0 <= i < |x| :: x[i].tableID == y[i].tableID && x[i].evidenceDigest == y[i].evidenceDigest
  {
    TaskFieldsLength(a, x);
    TaskFieldsLength(b, y);
    assert Header(a)[0] == Header(b)[0] && Header(a)[1] == Header(b)[1] && Header(a)[2] == Header(b)[2];
    assert Header(a)[3] == Header(b)[3] && Header(a)[4] == Header(b)[4] && Header(a)[5] == Header(b)[5];
    if x != [] {
      var p, q := x[..|x| - 1], y[..|y| - 1];
      var l, m := x[|x| - 1], y[|y| - 1];
      var fx, fy := TaskFields(a, x), TaskFields(b, y);
      TaskFieldsLength(a, p);
      TaskFieldsLength(b, q);
      assert TaskFields(a, p) == fx[..|fx| - 2] && TaskFields(b, q) == fy[..|fy| - 2];
      TaskFieldsUnique(a, b, p, q);
      assert fx[|fx| - 2] == l.tableID && fx[|fx| - 1] == l.evidenceDigest;
      assert fy[|fy| - 2] == m.tableID && fy[|fy| - 1] == m.evidenceDigest;
    }
  }

  /** Two archives have the same task digest only if they agree on the task header and on
      the evidence digests of the same tables, unless SHA-256 collides on the two inputs. */
  lemma TaskDigestIdentifies(t: Text, a: Task, b: Task, x: seq<TableArchive>, y: seq<TableArchive>)
    requires var u, v := FieldsBytes(TaskFields(a, x)), FieldsBytes(TaskFields(b, y)); t.sha(u) == t.sha(v) ==> u == v
    requires Assembled(t, a, x).digest == Assembled(t, b, y).digest
    ensures a == b && |x| == |y|
    ensures forall i | 0 <= i < |x| :: x[i].tableID == y[i].tableID && x[i].evidenceDigest == y[i].evidenceDigest
  {
    FieldsAreUnique(TaskFields(a, x), TaskFields(b, y));
    TaskFieldsUnique(a, b, x, y);
  }

  /** The repository may list the tables in any order. */
  lemma ListingOrderIrrelevant(t: Text, task: Task, store: EvidenceStore, a: seq<Keyed<Bytes>>, b: seq<Keyed<Bytes>>,
                               legacy: Result<TaskArchive, Failure>)
    requires multiset(a) == multiset(b) && DistinctKeys(a) && DistinctKeys(b)
    ensures Proposed(t, task, store, a, legacy) == Proposed(t, task, store, b, legacy)
  {
    SortIgnoresOrder(a, b);
  }
}
