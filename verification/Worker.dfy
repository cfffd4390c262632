/** The whole migration of one table: chunk records kept by the control plane, any
    number of attempts (live, stale or dead) running the pipeline over them, and the
    target they all write to. Events carry all nondeterminism; a disabled event
    changes nothing. */
module Worker {
  import opened Wrappers
  import opened Keys
  import opened Reading
  import Partition
  import opened Yield
  import Transform
  import P = Pipeline

  type Target = map<Transform.Row, Transform.Row>

  datatype Status = Pending | Running | Success | GaveUp

  /** `origin` is the cursor the chunk was created with. */
  datatype Chunk = Chunk(bounds: Bounds, origin: Key, cursor: Key, rowsRead: int, status: Status, owner: nat)

  datatype Attempt = Attempt(chunk: nat, worker: nat, run: P.Run, alive: bool)

  datatype State = State(chunks: seq<Chunk>, attempts: seq<Attempt>, target: Target)

  datatype Event =
    | Claim(chunk: nat, worker: nat)
    | Expire(chunk: nat)
    | Crash(attempt: nat)
    | Local(attempt: nat, step: P.Event)
    | Write(attempt: nat)
    | Land(attempt: nat, row: nat)
    | CommitLost(attempt: nat)
    | CommitAcked(attempt: nat, ack: P.Ack)
    | Report(attempt: nat, split: Split)
    | ReportFailure(attempt: nat, retry: bool)

  // ----- the target: keyed upserts of row images

  function TargetKey(env: P.Env, image: Transform.Row): Transform.Row {
    seq(|env.targetPK|, i requires 0 <= i < |env.targetPK| =>
      if env.targetPK[i] < |image| then image[env.targetPK[i]] else Transform.Null)
  }

  function Upsert(env: P.Env, t: Target, row: Keyed<Transform.Row>): Target {
    match P.Image(env, row)
    case Ok(image) => t[TargetKey(env, image) := image]
    case Err(_) => t
  }

  function UpsertAll(env: P.Env, t: Target, rows: seq<Keyed<Transform.Row>>): Target
    decreases |rows|
  {
    if rows == [] then t else UpsertAll(env, Upsert(env, t, rows[0]), rows[1..])
  }

  ghost predicate Done(env: P.Env, t: Target, row: Keyed<Transform.Row>) {
    var image := P.Image(env, row);
    image.Ok? && TargetKey(env, image.value) in t && t[TargetKey(env, image.value)] == image.value
  }

  /** Rows whose images share a target key have the same image. */
  ghost predicate Consistent(env: P.Env) {
    forall a, b | a in env.table && b in env.table && P.Image(env, a).Ok? && P.Image(env, b).Ok?
                  && TargetKey(env, P.Image(env, a).value) == TargetKey(env, P.Image(env, b).value) ::
      P.Image(env, a) == P.Image(env, b)
  }

  ghost predicate Holds(env: P.Env, t: Target) {
    forall row | row in env.table :: Done(env, t, row)
  }

  /** Exactly the tables a target can hold completely. */
  lemma ConsistentIffHoldable(env: P.Env)
    requires P.AllTranslate(env)
    ensures Consistent(env) <==> exists t: Target :: Holds(env, t)
  {
    if t: Target :| Holds(env, t) {
      forall a, b | a in env.table && b in env.table && P.Image(env, a).Ok? && P.Image(env, b).Ok?
                    && TargetKey(env, P.Image(env, a).value) == TargetKey(env, P.Image(env, b).value)
        ensures P.Image(env, a) == P.Image(env, b)
      {
        assert Done(env, t, a) && Done(env, t, b);
      }
    }
    if Consistent(env) {
      UpsertAllDone(env, map[], env.table);
      assert Holds(env, UpsertAll(env, map[], env.table));
    }
  }

  lemma UpsertGrows(env: P.Env, t: Target, row: Keyed<Transform.Row>)
    requires Consistent(env) && row in env.table
    ensures forall r | r in env.table && Done(env, t, r) :: Done(env, Upsert(env, t, row), r)
    ensures P.Image(env, row).Ok? ==> Done(env, Upsert(env, t, row), row)
  {
  }

  lemma {:induction false} UpsertAllGrows(env: P.Env, t: Target, rows: seq<Keyed<Transform.Row>>)
    requires Consistent(env) && forall i | 0 <= i < |rows| :: rows[i] in env.table
    ensures forall r | r in env.table && Done(env, t, r) :: Done(env, UpsertAll(env, t, rows), r)
    decreases |rows|
  {
    if rows != [] {
      UpsertGrows(env, t, rows[0]);
      UpsertAllGrows(env, Upsert(env, t, rows[0]), rows[1..]);
    }
  }

  lemma {:induction false} UpsertAllDone(env: P.Env, t: Target, rows: seq<Keyed<Transform.Row>>)
    requires Consistent(env) && forall i | 0 <= i < |rows| :: rows[i] in env.table
    ensures forall i | 0 <= i < |rows| && P.Image(env, rows[i]).Ok? :: Done(env, UpsertAll(env, t, rows), rows[i])
    decreases |rows|
  {
    if rows != [] {
      UpsertGrows(env, t, rows[0]);
      UpsertAllGrows(env, Upsert(env, t, rows[0]), rows[1..]);
      UpsertAllDone(env, Upsert(env, t, rows[0]), rows[1..]);
      forall i | 0 <= i < |rows| && P.Image(env, rows[i]).Ok?
        ensures Done(env, UpsertAll(env, t, rows), rows[i])
      {
        if i > 0 { assert rows[i] == rows[1..][i - 1]; }
      }
    }
  }

  // ----- the machine

  /** The control plane accepts progress from the worker that holds the chunk. */
  predicate Accepts(s: State, a: Attempt) {
    a.chunk < |s.chunks| && s.chunks[a.chunk].status == Running && s.chunks[a.chunk].owner == a.worker
  }

  function WithRun(s: State, i: nat, run: P.Run): State
    requires i < |s.attempts|
  {
    s.(attempts := s.attempts[i := s.attempts[i].(run := run)])
  }

  /** Cursor and counters of one progress message are stored together. */
  function Checkpoint(s: State, a: Attempt): State
    requires Accepts(s, a) && a.run.writer.Committing?
  {
    var c := s.chunks[a.chunk];
    s.(chunks := s.chunks[a.chunk := c.(cursor := a.run.writer.batch.cursor, rowsRead := a.run.rowsRead)])
  }

  function NewChunks(pieces: seq<Partition.Piece>): seq<Chunk> {
    if pieces == [] then []
    else [Chunk(pieces[0].bounds, pieces[0].cursor, pieces[0].cursor, 0, Pending, 0)] + NewChunks(pieces[1..])
  }

  function Complete(s: State, a: Attempt): State
    requires a.chunk < |s.chunks|
  {
    s.(chunks := s.chunks[a.chunk := s.chunks[a.chunk].(status := Success, rowsRead := a.run.rowsRead)])
  }

  function CompleteYielded(s: State, a: Attempt, split: Split): State
    requires a.chunk < |s.chunks|
  {
    var c, cursor := s.chunks[a.chunk], a.run.committedCursor;
    var rest := Remainders(c.bounds, cursor, split);
    if rest == [] then
      if AtEnd(c.bounds, cursor) then
        s.(chunks := s.chunks[a.chunk := c.(status := Success, rowsRead := a.run.rowsRead, cursor := cursor)])
      else s
    else
      var done := c.(bounds := CutAt(c.bounds, cursor), status := Success, rowsRead := a.run.rowsRead, cursor := cursor);
      s.(chunks := s.chunks[a.chunk := done] + NewChunks(rest))
  }

  predicate Live(s: State, i: nat) {
    i < |s.attempts| && s.attempts[i].alive
  }

  /** The attempt may store a checkpoint. */
  predicate MayCommit(s: State, i: nat) {
    Live(s, i) && s.attempts[i].run.writer.Committing? && Accepts(s, s.attempts[i])
  }

  /** The attempt reports that its run returned without an error. */
  predicate Reporting(s: State, i: nat) {
    && Live(s, i) && !s.attempts[i].run.cancelled && Accepts(s, s.attempts[i])
    && s.attempts[i].run.writer.Returned? && s.attempts[i].run.writer.outcome.Finished?
  }

  function Next(env: P.Env, s: State, e: Event): State {
    match e
    case Claim(c, w) =>
      if c < |s.chunks| && s.chunks[c].status == Pending then
        var run := P.Start(env, s.chunks[c].bounds, s.chunks[c].cursor, s.chunks[c].rowsRead);
        s.(chunks := s.chunks[c := s.chunks[c].(status := Running, owner := w)],
           attempts := s.attempts + [Attempt(c, w, run, true)])
      else s
    case Expire(c) =>
      if c < |s.chunks| && s.chunks[c].status == Running then
        s.(chunks := s.chunks[c := s.chunks[c].(status := Pending)])
      else s
    case Crash(i) =>
      if i < |s.attempts| then s.(attempts := s.attempts[i := s.attempts[i].(alive := false)]) else s
    case Local(i, step) =>
      if Live(s, i) && !step.WriteOk? && !step.CommitAcks? then
        WithRun(s, i, P.Step(env, s.attempts[i].run, step))
      else s
    case Write(i) =>
      if Live(s, i) && s.attempts[i].run.writer.Writing? then
        var r := s.attempts[i].run;
        WithRun(s, i, P.Step(env, r, P.WriteOk)).(target := UpsertAll(env, s.target, r.writer.batch.rows))
      else s
    case Land(i, k) =>
      if i < |s.attempts| && k < |s.attempts[i].run.issued| then
        s.(target := Upsert(env, s.target, s.attempts[i].run.issued[k]))
      else s
    case CommitLost(i) =>
      if MayCommit(s, i) then
        WithRun(Checkpoint(s, s.attempts[i]), i, P.Step(env, s.attempts[i].run, P.CommitFails))
      else s
    case CommitAcked(i, ack) =>
      if MayCommit(s, i) then
        WithRun(Checkpoint(s, s.attempts[i]), i, P.Step(env, s.attempts[i].run, P.CommitAcks(ack)))
      else s
    case Report(i, split) =>
      if Reporting(s, i) then
        if s.attempts[i].run.writer.outcome.stopped then CompleteYielded(s, s.attempts[i], split)
        else Complete(s, s.attempts[i])
      else s
    case ReportFailure(i, retry) =>
      if Live(s, i) && !s.attempts[i].run.cancelled && Accepts(s, s.attempts[i])
         && s.attempts[i].run.writer == P.Returned(P.Failed) then
        var c := s.chunks[s.attempts[i].chunk];
        s.(chunks := s.chunks[s.attempts[i].chunk := c.(status := if retry then Pending else GaveUp)])
      else s
  }

  function Exec(env: P.Env, s: State, events: seq<Event>): State
    decreases |events|
  {
    if events == [] then s else Exec(env, Next(env, s, events[0]), events[1..])
  }

  // ----- the invariant

  /** Every row of the bounds that a resume from this cursor would not read again is in the
      target, and so is the cursor's own row. */
  ghost predicate Settled(env: P.Env, t: Target, b: Bounds, cursor: Key) {
    forall row | row in env.table && Passed(b, cursor, row.key) :: Done(env, t, row)
  }

  predicate Passed(b: Bounds, cursor: Key, k: Key) {
    (Admits(b, [], k) && !Admits(b, cursor, k)) || (k != [] && k == cursor)
  }

  /** The cursor is that of a row of the bounds, or the lower bound of a remainder. */
  predicate Inside(b: Bounds, cursor: Key) {
    cursor == [] || match b
      case KeysetBounds(lower, _) => cursor == lower || Admits(b, [], cursor)
      case RangeBounds(_, _) => Admits(b, [], cursor) && |cursor| == 1
  }

  /** Integer ranges are planned only for tables with a single integer key. */
  ghost predicate KeysFit(env: P.Env, b: Bounds) {
    b.RangeBounds? ==> forall i | 0 <= i < |env.table| :: |env.table[i].key| == 1
  }

  ghost predicate AllDone(env: P.Env, t: Target, b: Bounds) {
    forall row | row in env.table && Admits(b, [], row.key) :: Done(env, t, row)
  }

  ghost predicate RowsDone(env: P.Env, t: Target, rows: seq<Keyed<Transform.Row>>) {
    forall i | 0 <= i < |rows| :: Done(env, t, rows[i])
  }

  ghost predicate ChunkInv(env: P.Env, t: Target, c: Chunk) {
    && KeysFit(env, c.bounds)
    && Settled(env, t, c.bounds, c.cursor)
    && (c.status == Success ==> AllDone(env, t, c.bounds))
    && (c.status != Success ==>
          && Inside(c.bounds, c.cursor)
          && c.rowsRead + |Select(env.table, c.bounds, c.cursor)| == |Select(env.table, c.bounds, c.origin)|)
  }

  /** What is known of the rows a run has written. */
  ghost predicate RunInv(env: P.Env, t: Target, r: P.Run) {
    && P.Inv(env, r)
    && KeysFit(env, r.bounds) && Inside(r.bounds, r.startCursor)
    && Settled(env, t, r.bounds, r.startCursor)
    && (forall i | 0 <= i < |r.issued| :: r.issued[i] in env.table)
    && (r.writer.Writing? ==> r.issued == r.writer.batch.rows && P.Translates(env, r.issued))
    && (!P.Failing(r) ==> 0 <= P.Committed(r) <= |P.Todo(env, r)| && RowsDone(env, t, P.Todo(env, r)[..P.Committed(r)]))
    && (r.writer.Committing? ==> RowsDone(env, t, r.writer.batch.rows))
  }

  /** An attempt works on the chunk as it was claimed, until the chunk is completed. */
  ghost predicate Linked(env: P.Env, chunks: seq<Chunk>, a: Attempt) {
    && a.chunk < |chunks|
    && (chunks[a.chunk].status != Success ==>
          && a.run.bounds == chunks[a.chunk].bounds
          && a.run.startRows + |P.Todo(env, a.run)| == |Select(env.table, a.run.bounds, chunks[a.chunk].origin)|)
  }

  /** Rows a chunk answers for: what it copied if complete, else its whole range. */
  function Credit(env: P.Env, c: Chunk): int {
    if c.status == Success then c.rowsRead else |Select(env.table, c.bounds, c.origin)|
  }

  function Credits(env: P.Env, chunks: seq<Chunk>): int {
    if chunks == [] then 0 else Credit(env, chunks[0]) + Credits(env, chunks[1..])
  }

  ghost predicate Covered(env: P.Env, t: Target, chunks: seq<Chunk>) {
    forall row | row in env.table && !Done(env, t, row) :: SomeReads(chunks, row.key)
  }

  ghost predicate SomeReads(chunks: seq<Chunk>, k: Key) {
    exists c :: 0 <= c < |chunks| && StillReads(chunks[c], k)
  }

  predicate StillReads(c: Chunk, k: Key) {
    c.status != Success && Admits(c.bounds, c.cursor, k)
  }

  /** The target holds what it held before, except for images of source rows. */
  ghost predicate Untouched(env: P.Env, t0: Target, t: Target) {
    && t0.Keys <= t.Keys
    && forall k | k in t :: (k in t0 && t[k] == t0[k]) || exists row :: row in env.table && ImageAt(env, row, k, t[k])
  }

  ghost predicate ImageAt(env: P.Env, row: Keyed<Transform.Row>, k: Transform.Row, v: Transform.Row) {
    P.Image(env, row) == Ok(v) && TargetKey(env, v) == k
  }

  ghost predicate ChunksInv(env: P.Env, t: Target, chunks: seq<Chunk>) {
    forall c | 0 <= c < |chunks| :: ChunkInv(env, t, chunks[c])
  }

  ghost predicate RunsInv(env: P.Env, t: Target, attempts: seq<Attempt>) {
    forall i | 0 <= i < |attempts| :: RunInv(env, t, attempts[i].run)
  }

  ghost predicate AllLinked(env: P.Env, chunks: seq<Chunk>, attempts: seq<Attempt>) {
    forall i | 0 <= i < |attempts| :: Linked(env, chunks, attempts[i])
  }

  ghost predicate Inv(env: P.Env, t0: Target, s: State) {
    && ChunksInv(env, s.target, s.chunks)
    && RunsInv(env, s.target, s.attempts)
    && AllLinked(env, s.chunks, s.attempts)
    && Covered(env, s.target, s.chunks)
    && Untouched(env, t0, s.target)
  }

  // ----- facts about cursors and positions

  lemma InsideAdmits(b: Bounds, cursor: Key, k: Key)
    requires Inside(b, cursor) && Admits(b, cursor, k)
    ensures Admits(b, [], k)
  {
    if b.KeysetBounds? && cursor != [] && Less(k, b.lower) {
      LessTransitive(cursor, k, b.lower);
      LessIrreflexive(cursor);
    }
  }

  lemma BehindIsAdmitted(env: P.Env, b: Bounds, start: Key, q: nat, j: nat)
    requires P.WellFormed(env) && q <= j < |Select(env.table, b, start)|
    ensures var todo := Select(env.table, b, start);
            Admits(b, P.CursorAt(todo, start, q), todo[j].key)
  {
    var todo := Select(env.table, b, start);
    var c := P.CursorAt(todo, start, q);
    P.RemainderAt(env, b, start, q);
    SelectMembers(env.table, b, c);
    assert todo[j] == Select(env.table, b, c)[j - q];
  }

  lemma CursorRowDone(env: P.Env, t: Target, b: Bounds, start: Key, q: nat, row: Keyed<Transform.Row>)
    requires P.WellFormed(env) && Settled(env, t, b, start) && q <= |Select(env.table, b, start)|
    requires RowsDone(env, t, Select(env.table, b, start)[..q])
    requires row in env.table && row.key == P.CursorAt(Select(env.table, b, start), start, q)
    ensures Done(env, t, row)
  {
    if q == 0 {
      assert row.key != [] && Passed(b, start, row.key);
    } else {
      var todo := Select(env.table, b, start);
      SelectMembers(env.table, b, start);
      assert todo[..q][q - 1] == todo[q - 1] && todo[q - 1] in env.table;
      SameKeySameRow(env.table, row, todo[q - 1]);
    }
  }

  lemma SameKeySameRow<T>(rows: seq<Keyed<T>>, a: Keyed<T>, b: Keyed<T>)
    requires Sorted(rows) && a in rows && b in rows && a.key == b.key
    ensures a == b
  {
    LessIrreflexive(a.key);
  }

  /** Copying the first q rows behind a settled cursor settles the q-th row's cursor. */
  lemma SettledAt(env: P.Env, t: Target, b: Bounds, start: Key, q: nat)
    requires P.WellFormed(env) && Settled(env, t, b, start)
    requires q <= |Select(env.table, b, start)| && RowsDone(env, t, Select(env.table, b, start)[..q])
    ensures Settled(env, t, b, P.CursorAt(Select(env.table, b, start), start, q))
  {
    var todo := Select(env.table, b, start);
    forall row | row in env.table && Passed(b, P.CursorAt(todo, start, q), row.key)
      ensures Done(env, t, row)
    {
      if row.key == P.CursorAt(todo, start, q) {
        CursorRowDone(env, t, b, start, q, row);
      } else if Admits(b, start, row.key) {
        RowAt(env.table, b, start, row);
        var i :| 0 <= i < |todo| && todo[i] == row;
        if i < q {
          assert todo[..q][i] == row;
        } else {
          BehindIsAdmitted(env, b, start, q, i);
        }
      }
    }
  }

  lemma RowAt<T>(rows: seq<Keyed<T>>, b: Bounds, cursor: Key, row: Keyed<T>)
    requires row in rows && Admits(b, cursor, row.key)
    ensures exists i :: 0 <= i < |Select(rows, b, cursor)| && Select(rows, b, cursor)[i] == row
  {
    SelectMembers(rows, b, cursor);
  }

  lemma PositionInside(env: P.Env, b: Bounds, start: Key, q: nat)
    requires P.WellFormed(env) && KeysFit(env, b) && Inside(b, start) && q <= |Select(env.table, b, start)|
    ensures Inside(b, P.CursorAt(Select(env.table, b, start), start, q))
    ensures |Select(env.table, b, P.CursorAt(Select(env.table, b, start), start, q))| == |Select(env.table, b, start)| - q
  {
    P.RemainderAt(env, b, start, q);
    if q > 0 {
      SelectMembers(env.table, b, start);
      InsideAdmits(b, start, Select(env.table, b, start)[q - 1].key);
      assert Select(env.table, b, start)[q - 1] in env.table;
    }
  }

  lemma TodoInTable(env: P.Env, r: P.Run)
    ensures forall i | 0 <= i < |P.Todo(env, r)| :: P.Todo(env, r)[i] in env.table
  {
    SelectMembers(env.table, r.bounds, r.startCursor);
  }

  // ----- target changes

  ghost predicate Grows(env: P.Env, t: Target, t': Target) {
    forall row | row in env.table && Done(env, t, row) :: Done(env, t', row)
  }

  lemma RunInvGrows(env: P.Env, t: Target, t': Target, r: P.Run)
    requires RunInv(env, t, r) && Grows(env, t, t')
    ensures RunInv(env, t', r)
  {
    if !P.Failing(r) {
      TodoInTable(env, r);
      forall i | 0 <= i < P.Committed(r) ensures Done(env, t', P.Todo(env, r)[..P.Committed(r)][i]) {
        assert Done(env, t, P.Todo(env, r)[..P.Committed(r)][i]);
      }
    }
    if r.writer.Committing? {
      BatchInTable(env, r);
    }
  }

  /** The batch in the writer's hand is the next slice of the chunk. */
  lemma BatchInTable(env: P.Env, r: P.Run)
    requires P.Inv(env, r) && (r.writer.Writing? || r.writer.Committing?)
    ensures var b, p, todo := r.writer.batch, P.Committed(r), P.Todo(env, r);
            && 0 <= p && p + |b.rows| <= |todo| && b.rows == todo[p..p + |b.rows|]
            && b.cursor == P.CursorAt(todo, r.startCursor, p + |b.rows|)
            && forall i | 0 <= i < |b.rows| :: b.rows[i] in env.table
  {
    P.InHandIsNext(P.Todo(env, r), r);
    TodoInTable(env, r);
    SliceInTable(env, P.Todo(env, r), P.Committed(r), r.writer.batch.rows);
  }

  lemma SliceInTable(env: P.Env, todo: seq<Keyed<Transform.Row>>, p: nat, rows: seq<Keyed<Transform.Row>>)
    requires p + |rows| <= |todo| && rows == todo[p..p + |rows|]
    requires forall i | 0 <= i < |todo| :: todo[i] in env.table
    ensures forall i | 0 <= i < |rows| :: rows[i] in env.table
  {
    assert forall i | 0 <= i < |rows| :: rows[i] == todo[p + i];
  }

  lemma TargetGrows(env: P.Env, t0: Target, s: State, t': Target)
    requires Inv(env, t0, s) && Grows(env, s.target, t') && Untouched(env, t0, t')
    ensures Inv(env, t0, s.(target := t'))
  {
    forall i | 0 <= i < |s.attempts| ensures RunInv(env, t', s.attempts[i].run) {
      RunInvGrows(env, s.target, t', s.attempts[i].run);
    }
  }

  lemma UpsertUntouched(env: P.Env, t0: Target, t: Target, row: Keyed<Transform.Row>)
    requires Untouched(env, t0, t) && row in env.table
    ensures Untouched(env, t0, Upsert(env, t, row))
  {
    var image := P.Image(env, row);
    if image.Ok? {
      assert ImageAt(env, row, TargetKey(env, image.value), image.value);
    }
  }

  lemma {:induction false} UpsertAllUntouched(env: P.Env, t0: Target, t: Target, rows: seq<Keyed<Transform.Row>>)
    requires Untouched(env, t0, t) && forall i | 0 <= i < |rows| :: rows[i] in env.table
    ensures Untouched(env, t0, UpsertAll(env, t, rows))
    decreases |rows|
  {
    if rows != [] {
      UpsertUntouched(env, t0, t, rows[0]);
      UpsertAllUntouched(env, t0, Upsert(env, t, rows[0]), rows[1..]);
    }
  }

  // ----- what every event keeps

  lemma {:induction false} CreditsUpdate(env: P.Env, chunks: seq<Chunk>, i: nat, c: Chunk)
    requires i < |chunks|
    ensures Credits(env, chunks[i := c]) == Credits(env, chunks) - Credit(env, chunks[i]) + Credit(env, c)
  {
    if i == 0 {
      assert chunks[i := c][1..] == chunks[1..];
    } else {
      assert chunks[i := c][1..] == chunks[1..][i - 1 := c];
      CreditsUpdate(env, chunks[1..], i - 1, c);
    }
  }

  lemma {:induction false} CreditsAppend(env: P.Env, a: seq<Chunk>, b: seq<Chunk>)
    ensures Credits(env, a + b) == Credits(env, a) + Credits(env, b)
  {
    if a == [] {
      assert a + b == b;
    } else {
      assert (a + b)[1..] == a[1..] + b;
      CreditsAppend(env, a[1..], b);
    }
  }

  ghost predicate SameCredits(env: P.Env, s: State, s': State) {
    Credits(env, s'.chunks) == Credits(env, s.chunks)
  }

  /** Replacing one chunk record by one that answers for the same rows. */
  ghost predicate Replaces(env: P.Env, t: Target, c: Chunk, c': Chunk) {
    && ChunkInv(env, t, c') && Credit(env, c') == Credit(env, c)
    && (c'.status != Success ==> c'.bounds == c.bounds && c'.origin == c.origin && c.status != Success)
  }

  lemma ReplacedStillCovers(env: P.Env, t: Target, c: Chunk, c': Chunk, row: Keyed<Transform.Row>)
    requires ChunkInv(env, t, c) && c.status != Success && Replaces(env, t, c, c') && (c'.status == Success ==> c'.bounds == c.bounds)
    requires row in env.table && !Done(env, t, row) && StillReads(c, row.key)
    ensures StillReads(c', row.key)
  {
    InsideAdmits(c.bounds, c.cursor, row.key);
  }

  lemma ReplaceCovered(env: P.Env, t: Target, chunks: seq<Chunk>, i: nat, c': Chunk)
    requires i < |chunks| && Covered(env, t, chunks) && ChunkInv(env, t, chunks[i])
    requires Replaces(env, t, chunks[i], c') && c'.bounds == chunks[i].bounds
    ensures Covered(env, t, chunks[i := c'])
  {
    forall row | row in env.table && !Done(env, t, row)
      ensures SomeReads(chunks[i := c'], row.key)
    {
      assert SomeReads(chunks, row.key);
      var c :| 0 <= c < |chunks| && StillReads(chunks[c], row.key);
      if c == i {
        ReplacedStillCovers(env, t, chunks[i], c', row);
      }
      assert StillReads(chunks[i := c'][c], row.key);
    }
  }

  lemma ReplaceLinked(env: P.Env, t: Target, chunks: seq<Chunk>, attempts: seq<Attempt>, i: nat, c': Chunk)
    requires i < |chunks| && AllLinked(env, chunks, attempts) && Replaces(env, t, chunks[i], c')
    ensures AllLinked(env, chunks[i := c'], attempts)
  {
    forall j | 0 <= j < |attempts| ensures Linked(env, chunks[i := c'], attempts[j]) {
      assert Linked(env, chunks, attempts[j]);
    }
  }

  /** Changing a chunk record in place, within its bounds. */
  lemma ReplaceChunk(env: P.Env, t0: Target, s: State, i: nat, c': Chunk)
    requires Inv(env, t0, s) && i < |s.chunks|
    requires Replaces(env, s.target, s.chunks[i], c') && c'.bounds == s.chunks[i].bounds
    ensures Inv(env, t0, s.(chunks := s.chunks[i := c']))
    ensures Credits(env, s.chunks[i := c']) == Credits(env, s.chunks)
  {
    CreditsUpdate(env, s.chunks, i, c');
    ReplaceCovered(env, s.target, s.chunks, i, c');
    ReplaceLinked(env, s.target, s.chunks, s.attempts, i, c');
  }

  lemma ReplaceRun(env: P.Env, t: Target, chunks: seq<Chunk>, attempts: seq<Attempt>, i: nat, r: P.Run)
    requires RunsInv(env, t, attempts) && AllLinked(env, chunks, attempts) && i < |attempts| && RunInv(env, t, r)
    requires r.bounds == attempts[i].run.bounds && r.startCursor == attempts[i].run.startCursor
             && r.startRows == attempts[i].run.startRows
    ensures RunsInv(env, t, attempts[i := attempts[i].(run := r)])
    ensures AllLinked(env, chunks, attempts[i := attempts[i].(run := r)])
  {
    assert P.Todo(env, r) == P.Todo(env, attempts[i].run);
    assert Linked(env, chunks, attempts[i]);
  }

  /** A claimed chunk is run from its durable cursor, with its durable counter. */
  lemma StartRunKeeps(env: P.Env, t: Target, c: Chunk)
    requires P.WellFormed(env) && ChunkInv(env, t, c) && c.status != Success
    ensures var r := P.Start(env, c.bounds, c.cursor, c.rowsRead);
            RunInv(env, t, r) && r.startRows + |P.Todo(env, r)| == |Select(env.table, c.bounds, c.origin)|
  {
    P.StartKeeps(env, c.bounds, c.cursor, c.rowsRead);
  }

  lemma AddAttempt(env: P.Env, t0: Target, s: State, a: Attempt)
    requires Inv(env, t0, s) && RunInv(env, s.target, a.run) && Linked(env, s.chunks, a)
    ensures Inv(env, t0, s.(attempts := s.attempts + [a]))
  {
  }

  lemma ClaimKeeps(env: P.Env, t0: Target, s: State, c: nat, w: nat)
    requires P.WellFormed(env) && Inv(env, t0, s)
    ensures Inv(env, t0, Next(env, s, Claim(c, w)))
    ensures SameCredits(env, s, Next(env, s, Claim(c, w)))
  {
    if c < |s.chunks| && s.chunks[c].status == Pending {
      var was := s.chunks[c];
      var claimed := s.(chunks := s.chunks[c := was.(status := Running, owner := w)]);
      ReplaceChunk(env, t0, s, c, was.(status := Running, owner := w));
      StartRunKeeps(env, s.target, was);
      AddAttempt(env, t0, claimed, Attempt(c, w, P.Start(env, was.bounds, was.cursor, was.rowsRead), true));
    }
  }

  lemma LocalStepShape(env: P.Env, r: P.Run, e: P.Event)
    requires !e.WriteOk? && !e.CommitAcks?
    ensures var r' := P.Step(env, r, e);
            && r'.bounds == r.bounds && r'.startCursor == r.startCursor && r'.startRows == r.startRows
            && (!P.Failing(r') ==> !P.Failing(r) && P.Committed(r') == P.Committed(r))
            && (r'.writer.Committing? ==> r'.writer == r.writer)
            && (r'.issued == r.issued || r'.writer.Writing?)
            && (r'.writer.Writing? ==> (r'.writer == r.writer && r'.issued == r.issued)
                                       || (r'.issued == r'.writer.batch.rows && P.Translates(env, r'.issued)))
  {
  }

  lemma LocalRunKeeps(env: P.Env, t: Target, r: P.Run, e: P.Event)
    requires P.WellFormed(env) && RunInv(env, t, r) && !e.WriteOk? && !e.CommitAcks?
    ensures RunInv(env, t, P.Step(env, r, e))
  {
    var r' := P.Step(env, r, e);
    P.StepKeeps(env, r, e);
    LocalStepShape(env, r, e);
    assert P.Todo(env, r') == P.Todo(env, r);
    if r'.writer.Writing? {
      BatchInTable(env, r');
    }
  }

  lemma LocalKeeps(env: P.Env, t0: Target, s: State, i: nat, e: P.Event)
    requires P.WellFormed(env) && Inv(env, t0, s)
    ensures Inv(env, t0, Next(env, s, Local(i, e)))
  {
    if Live(s, i) && !e.WriteOk? && !e.CommitAcks? {
      LocalRunKeeps(env, s.target, s.attempts[i].run, e);
      P.StepKeepsJob(env, s.attempts[i].run, e);
      ReplaceRun(env, s.target, s.chunks, s.attempts, i, P.Step(env, s.attempts[i].run, e));
    }
  }

  lemma WriteRunKeeps(env: P.Env, t: Target, r: P.Run)
    requires P.WellFormed(env) && RunInv(env, t, r) && r.writer.Writing? && RowsDone(env, t, r.writer.batch.rows)
    ensures RunInv(env, t, P.Step(env, r, P.WriteOk))
  {
    P.StepKeeps(env, r, P.WriteOk);
    var r' := P.Step(env, r, P.WriteOk);
    assert P.Committed(r') == P.Committed(r) && P.Todo(env, r') == P.Todo(env, r) && r'.issued == r.issued;
  }

  lemma WriteReachesTarget(env: P.Env, t0: Target, s: State, rows: seq<Keyed<Transform.Row>>)
    requires Consistent(env) && Inv(env, t0, s)
    requires P.Translates(env, rows) && forall i | 0 <= i < |rows| :: rows[i] in env.table
    ensures Inv(env, t0, s.(target := UpsertAll(env, s.target, rows)))
    ensures RowsDone(env, UpsertAll(env, s.target, rows), rows)
  {
    UpsertAllGrows(env, s.target, rows);
    UpsertAllUntouched(env, t0, s.target, rows);
    TargetGrows(env, t0, s, UpsertAll(env, s.target, rows));
    P.TranslatesPointwise(env, rows);
    UpsertAllDone(env, s.target, rows);
  }

  lemma WriterAdvances(env: P.Env, t0: Target, s: State, i: nat)
    requires P.WellFormed(env) && Inv(env, t0, s) && i < |s.attempts|
    requires s.attempts[i].run.writer.Writing? && RowsDone(env, s.target, s.attempts[i].run.writer.batch.rows)
    ensures Inv(env, t0, WithRun(s, i, P.Step(env, s.attempts[i].run, P.WriteOk)))
  {
    var r := s.attempts[i].run;
    WriteRunKeeps(env, s.target, r);
    P.StepKeepsJob(env, r, P.WriteOk);
    ReplaceRun(env, s.target, s.chunks, s.attempts, i, P.Step(env, r, P.WriteOk));
  }

  lemma WriterRows(env: P.Env, t: Target, r: P.Run)
    requires RunInv(env, t, r) && r.writer.Writing?
    ensures P.Translates(env, r.writer.batch.rows)
    ensures forall i | 0 <= i < |r.writer.batch.rows| :: r.writer.batch.rows[i] in env.table
  {
  }

  lemma WriteKeeps(env: P.Env, t0: Target, s: State, i: nat)
    requires P.WellFormed(env) && Consistent(env) && Inv(env, t0, s)
    ensures Inv(env, t0, Next(env, s, Write(i)))
  {
    if Live(s, i) && s.attempts[i].run.writer.Writing? {
      var rows := s.attempts[i].run.writer.batch.rows;
      WriterRows(env, s.target, s.attempts[i].run);
      WriteReachesTarget(env, t0, s, rows);
      WriterAdvances(env, t0, s.(target := UpsertAll(env, s.target, rows)), i);
    }
  }

  lemma UpsertKeeps(env: P.Env, t0: Target, s: State, row: Keyed<Transform.Row>)
    requires Consistent(env) && Inv(env, t0, s) && row in env.table
    ensures Inv(env, t0, s.(target := Upsert(env, s.target, row)))
  {
    UpsertGrows(env, s.target, row);
    UpsertUntouched(env, t0, s.target, row);
    TargetGrows(env, t0, s, Upsert(env, s.target, row));
  }

  lemma LandKeeps(env: P.Env, t0: Target, s: State, i: nat, k: nat)
    requires P.WellFormed(env) && Consistent(env) && Inv(env, t0, s)
    ensures Inv(env, t0, Next(env, s, Land(i, k)))
  {
    if i < |s.attempts| && k < |s.attempts[i].run.issued| {
      IssuedFromTable(env, s.target, s.attempts[i].run, k);
      UpsertKeeps(env, t0, s, s.attempts[i].run.issued[k]);
    }
  }

  lemma IssuedFromTable(env: P.Env, t: Target, r: P.Run, k: nat)
    requires RunInv(env, t, r) && k < |r.issued|
    ensures r.issued[k] in env.table
  {
  }

  // ----- commits

  /** A batch that was written settles its cursor and adds its rows to the count. */
  lemma CommitSettles(env: P.Env, t: Target, r: P.Run)
    requires P.WellFormed(env) && RunInv(env, t, r) && r.writer.Committing?
    ensures var b, todo := r.writer.batch, P.Todo(env, r);
            && Settled(env, t, r.bounds, b.cursor) && Inside(r.bounds, b.cursor)
            && r.rowsRead + |Select(env.table, r.bounds, b.cursor)| == r.startRows + |todo|
            && 0 <= r.rowsRead - r.startRows <= |todo|
            && RowsDone(env, t, todo[..r.rowsRead - r.startRows])
  {
    var b, p, todo := r.writer.batch, P.Committed(r), P.Todo(env, r);
    BatchInTable(env, r);
    var q := p + |b.rows|;
    forall i | 0 <= i < q ensures Done(env, t, todo[..q][i]) {
      if i < p {
        assert Done(env, t, todo[..p][i]);
      } else {
        assert b.rows[i - p] == todo[i];
      }
    }
    SettledAt(env, t, r.bounds, r.startCursor, q);
    PositionInside(env, r.bounds, r.startCursor, q);
  }

  lemma CheckpointKeeps(env: P.Env, t0: Target, s: State, i: nat)
    requires P.WellFormed(env) && Inv(env, t0, s) && i < |s.attempts|
    requires Accepts(s, s.attempts[i]) && s.attempts[i].run.writer.Committing?
    ensures Inv(env, t0, Checkpoint(s, s.attempts[i]))
    ensures SameCredits(env, s, Checkpoint(s, s.attempts[i]))
  {
    var a := s.attempts[i];
    assert Linked(env, s.chunks, a) && ChunkInv(env, s.target, s.chunks[a.chunk]);
    CommitSettles(env, s.target, a.run);
    var c := s.chunks[a.chunk];
    ReplaceChunk(env, t0, s, a.chunk, c.(cursor := a.run.writer.batch.cursor, rowsRead := a.run.rowsRead));
  }

  lemma AckShape(env: P.Env, r: P.Run, ack: P.Ack)
    requires r.writer.Committing?
    ensures var r' := P.Step(env, r, P.CommitAcks(ack));
            && !P.Failing(r') && P.Committed(r') == r.rowsRead - r.startRows
            && !r'.writer.Writing? && !r'.writer.Committing? && r'.issued == r.issued
            && r'.bounds == r.bounds && r'.startCursor == r.startCursor && r'.startRows == r.startRows
  {
  }

  lemma AckRunKeeps(env: P.Env, t: Target, r: P.Run, ack: P.Ack)
    requires P.WellFormed(env) && RunInv(env, t, r) && r.writer.Committing?
    ensures RunInv(env, t, P.Step(env, r, P.CommitAcks(ack)))
  {
    P.StepKeeps(env, r, P.CommitAcks(ack));
    AckShape(env, r, ack);
    CommitSettles(env, t, r);
    assert P.Todo(env, P.Step(env, r, P.CommitAcks(ack))) == P.Todo(env, r);
  }

  lemma LostKeeps(env: P.Env, t0: Target, s: State, i: nat)
    requires P.WellFormed(env) && Inv(env, t0, s) && i < |s.attempts|
    ensures Inv(env, t0, WithRun(s, i, P.Step(env, s.attempts[i].run, P.CommitFails)))
  {
    var r := s.attempts[i].run;
    LocalRunKeeps(env, s.target, r, P.CommitFails);
    P.StepKeepsJob(env, r, P.CommitFails);
    ReplaceRun(env, s.target, s.chunks, s.attempts, i, P.Step(env, r, P.CommitFails));
  }

  lemma AckedKeeps(env: P.Env, t0: Target, s: State, i: nat, ack: P.Ack)
    requires P.WellFormed(env) && Inv(env, t0, s) && i < |s.attempts| && s.attempts[i].run.writer.Committing?
    ensures Inv(env, t0, WithRun(s, i, P.Step(env, s.attempts[i].run, P.CommitAcks(ack))))
  {
    var r := s.attempts[i].run;
    AckRunKeeps(env, s.target, r, ack);
    AckShape(env, r, ack);
    ReplaceRun(env, s.target, s.chunks, s.attempts, i, P.Step(env, r, P.CommitAcks(ack)));
  }

  lemma LostShape(env: P.Env, s: State, i: nat)
    requires MayCommit(s, i)
    ensures var s' := Checkpoint(s, s.attempts[i]);
            && s'.attempts == s.attempts
            && Next(env, s, CommitLost(i)) == WithRun(s', i, P.Step(env, s'.attempts[i].run, P.CommitFails))
  {
  }

  lemma AckedShape(env: P.Env, s: State, i: nat, ack: P.Ack)
    requires MayCommit(s, i)
    ensures var s' := Checkpoint(s, s.attempts[i]);
            && s'.attempts == s.attempts
            && Next(env, s, CommitAcked(i, ack)) == WithRun(s', i, P.Step(env, s'.attempts[i].run, P.CommitAcks(ack)))
  {
  }

  lemma CommitLostKeeps(env: P.Env, t0: Target, s: State, i: nat)
    requires P.WellFormed(env) && Inv(env, t0, s)
    ensures Inv(env, t0, Next(env, s, CommitLost(i)))
    ensures SameCredits(env, s, Next(env, s, CommitLost(i)))
  {
    if MayCommit(s, i) {
      LostShape(env, s, i);
      CheckpointKeeps(env, t0, s, i);
      LostKeeps(env, t0, Checkpoint(s, s.attempts[i]), i);
    }
  }

  lemma CommitAckedKeeps(env: P.Env, t0: Target, s: State, i: nat, ack: P.Ack)
    requires P.WellFormed(env) && Inv(env, t0, s)
    ensures Inv(env, t0, Next(env, s, CommitAcked(i, ack)))
    ensures SameCredits(env, s, Next(env, s, CommitAcked(i, ack)))
  {
    if MayCommit(s, i) {
      AckedShape(env, s, i, ack);
      CheckpointKeeps(env, t0, s, i);
      AckedKeeps(env, t0, Checkpoint(s, s.attempts[i]), i, ack);
    }
  }

  // ----- the end of an attempt

  /** The durable position of a run that returned without an error. */
  lemma FinishedPosition(env: P.Env, t: Target, r: P.Run)
    requires P.WellFormed(env) && RunInv(env, t, r) && r.writer.Returned? && r.writer.outcome.Finished?
    ensures Settled(env, t, r.bounds, r.committedCursor) && Inside(r.bounds, r.committedCursor)
    ensures r.rowsRead + |Select(env.table, r.bounds, r.committedCursor)| == r.startRows + |P.Todo(env, r)|
    ensures r.writer == P.Returned(P.Finished(false)) && !r.cancelled ==> Select(env.table, r.bounds, r.committedCursor) == []
  {
    assert P.Placed(P.Todo(env, r), r, P.Pipe(r));
    SettledAt(env, t, r.bounds, r.startCursor, P.Committed(r));
    PositionInside(env, r.bounds, r.startCursor, P.Committed(r));
  }

  lemma NothingLeftMeansAllDone(env: P.Env, t: Target, b: Bounds, cursor: Key)
    requires Settled(env, t, b, cursor) && Select(env.table, b, cursor) == []
    ensures AllDone(env, t, b)
  {
    SelectMembers(env.table, b, cursor);
  }

  lemma CompleteKeeps(env: P.Env, t0: Target, s: State, i: nat)
    requires P.WellFormed(env) && Inv(env, t0, s) && i < |s.attempts| && Accepts(s, s.attempts[i])
    requires s.attempts[i].run.writer == P.Returned(P.Finished(false)) && !s.attempts[i].run.cancelled
    ensures Inv(env, t0, Complete(s, s.attempts[i]))
    ensures SameCredits(env, s, Complete(s, s.attempts[i]))
  {
    var a := s.attempts[i];
    assert RunInv(env, s.target, a.run) && Linked(env, s.chunks, a) && ChunkInv(env, s.target, s.chunks[a.chunk]);
    FinishedPosition(env, s.target, a.run);
    NothingLeftMeansAllDone(env, s.target, a.run.bounds, a.run.committedCursor);
    ReplaceChunk(env, t0, s, a.chunk, s.chunks[a.chunk].(status := Success, rowsRead := a.run.rowsRead));
  }

  lemma AtEndLeavesNothing(env: P.Env, b: Bounds, cursor: Key)
    requires KeysFit(env, b) && Inside(b, cursor) && AtEnd(b, cursor)
    ensures Select(env.table, b, cursor) == []
  {
    SelectMembers(env.table, b, cursor);
    var left := Select(env.table, b, cursor);
    if left != [] {
      var row := left[0];
      assert row in env.table;
      var j :| 0 <= j < |env.table| && env.table[j] == row;
      if b.RangeBounds? {
        SingleLess(cursor, row.key);
      } else {
        LessAsymmetric(row.key, cursor);
      }
    }
  }

  lemma YieldAtEndKeeps(env: P.Env, t0: Target, s: State, i: nat)
    requires P.WellFormed(env) && Inv(env, t0, s) && i < |s.attempts| && Accepts(s, s.attempts[i])
    requires s.attempts[i].run.writer.Returned? && s.attempts[i].run.writer.outcome.Finished?
    requires AtEnd(s.chunks[s.attempts[i].chunk].bounds, s.attempts[i].run.committedCursor)
    ensures var a := s.attempts[i];
            var s' := s.(chunks := s.chunks[a.chunk := s.chunks[a.chunk].(
              status := Success, rowsRead := a.run.rowsRead, cursor := a.run.committedCursor)]);
            Inv(env, t0, s') && SameCredits(env, s, s')
  {
    var a := s.attempts[i];
    assert RunInv(env, s.target, a.run) && Linked(env, s.chunks, a) && ChunkInv(env, s.target, s.chunks[a.chunk]);
    FinishedPosition(env, s.target, a.run);
    AtEndLeavesNothing(env, a.run.bounds, a.run.committedCursor);
    NothingLeftMeansAllDone(env, s.target, a.run.bounds, a.run.committedCursor);
    ReplaceChunk(env, t0, s, a.chunk, s.chunks[a.chunk].(
      status := Success, rowsRead := a.run.rowsRead, cursor := a.run.committedCursor));
  }

  lemma {:induction false} NewChunksAt(pieces: seq<Partition.Piece>)
    ensures |NewChunks(pieces)| == |pieces|
    ensures forall i | 0 <= i < |pieces| ::
              NewChunks(pieces)[i] == Chunk(pieces[i].bounds, pieces[i].cursor, pieces[i].cursor, 0, Pending, 0)
  {
    if pieces != [] {
      NewChunksAt(pieces[1..]);
    }
  }

  lemma {:induction false} NewChunksCredit(env: P.Env, pieces: seq<Partition.Piece>)
    ensures Credits(env, NewChunks(pieces)) == Partition.Total(env.table, pieces)
  {
    if pieces != [] {
      NewChunksCredit(env, pieces[1..]);
      assert NewChunks(pieces)[1..] == NewChunks(pieces[1..]);
    }
  }

  /** The completed part of a yielded chunk holds only rows that were copied. */
  lemma CutIsDone(env: P.Env, t: Target, b: Bounds, cursor: Key)
    requires cursor != [] && KeysFit(env, b) && Inside(b, cursor) && Settled(env, t, b, cursor)
    ensures AllDone(env, t, CutAt(b, cursor))
  {
    forall row | row in env.table && Admits(CutAt(b, cursor), [], row.key) ensures Done(env, t, row) {
      var j :| 0 <= j < |env.table| && env.table[j] == row;
      if b.RangeBounds? {
        SingleLess(cursor, row.key);
      } else {
        LessAsymmetric(row.key, cursor);
        if b.upper != [] && Less(cursor, b.upper) {
          LessTransitive(row.key, cursor, b.upper);
        }
      }
    }
  }

  lemma RemainderSettled(env: P.Env, t: Target, b: Bounds, cursor: Key, piece: Partition.Piece)
    requires KeysFit(env, b) && Inside(b, cursor) && cursor != [] && Settled(env, t, b, cursor)
    requires piece.bounds.RangeBounds? <==> b.RangeBounds?
    requires piece.cursor == [] || (b.KeysetBounds? && piece.cursor == cursor && piece.bounds.lower == cursor)
    ensures ChunkInv(env, t, Chunk(piece.bounds, piece.cursor, piece.cursor, 0, Pending, 0))
  {
    if piece.cursor != [] {
      LessIrreflexive(cursor);
      forall row | row in env.table && Passed(piece.bounds, cursor, row.key) ensures Done(env, t, row) {
        LessTotal(cursor, row.key);
        assert Passed(b, cursor, row.key);
      }
    }
  }

  /** `rest` reads at least what the chunk had left when it was cut at the cursor. */
  ghost predicate CutInto(env: P.Env, t: Target, c: Chunk, cursor: Key, rows: int, rest: seq<Partition.Piece>) {
    && c.status != Success && cursor != [] && KeysFit(env, c.bounds) && Inside(c.bounds, cursor)
    && Settled(env, t, c.bounds, cursor)
    && Inside(c.bounds, c.cursor)
    && rows + |Select(env.table, c.bounds, cursor)| == |Select(env.table, c.bounds, c.origin)|
    && Partition.Reaches(env.table, rest, Partition.Piece(c.bounds, cursor))
    && forall p | 0 <= p < |rest| ::
         ChunkInv(env, t, Chunk(rest[p].bounds, rest[p].cursor, rest[p].cursor, 0, Pending, 0))
  }

  /** What the chunk had left to read, its remainders still read. */
  lemma RestReads(env: P.Env, rest: seq<Partition.Piece>, whole: Partition.Piece, row: Keyed<Transform.Row>)
    requires Partition.Reaches(env.table, rest, whole) && row in env.table && Admits(whole.bounds, whole.cursor, row.key)
    ensures SomeReads(NewChunks(rest), row.key)
  {
    NewChunksAt(rest);
    var r :| 0 <= r < |env.table| && env.table[r] == row;
    assert Partition.Hits(rest, env.table[r].key) >= 1;
    Partition.HitExists(rest, row.key);
    var p :| 0 <= p < |rest| && Admits(rest[p].bounds, rest[p].cursor, row.key);
    assert StillReads(NewChunks(rest)[p], row.key);
  }

  lemma SomeReadsBehind(front: seq<Chunk>, back: seq<Chunk>, k: Key)
    requires SomeReads(back, k)
    ensures SomeReads(front + back, k)
  {
    var p :| 0 <= p < |back| && StillReads(back[p], k);
    assert (front + back)[|front| + p] == back[p];
  }

  lemma SplitCovered(env: P.Env, t: Target, chunks: seq<Chunk>, j: nat, done: Chunk, cursor: Key, rows: int,
                     rest: seq<Partition.Piece>)
    requires j < |chunks| && Covered(env, t, chunks) && CutInto(env, t, chunks[j], cursor, rows, rest)
    ensures Covered(env, t, chunks[j := done] + NewChunks(rest))
  {
    var all := chunks[j := done] + NewChunks(rest);
    forall row | row in env.table && !Done(env, t, row) ensures SomeReads(all, row.key) {
      assert SomeReads(chunks, row.key);
      var c :| 0 <= c < |chunks| && StillReads(chunks[c], row.key);
      if c == j {
        InsideAdmits(chunks[j].bounds, chunks[j].cursor, row.key);
        RestReads(env, rest, Partition.Piece(chunks[j].bounds, cursor), row);
        SomeReadsBehind(chunks[j := done], NewChunks(rest), row.key);
      } else {
        assert StillReads(all[c], row.key);
      }
    }
  }

  lemma SplitChunksInv(env: P.Env, t: Target, chunks: seq<Chunk>, j: nat, done: Chunk, cursor: Key, rows: int,
                       rest: seq<Partition.Piece>)
    requires j < |chunks| && ChunksInv(env, t, chunks) && CutInto(env, t, chunks[j], cursor, rows, rest)
    requires ChunkInv(env, t, done)
    ensures ChunksInv(env, t, chunks[j := done] + NewChunks(rest))
  {
    NewChunksAt(rest);
    var all := chunks[j := done] + NewChunks(rest);
    forall c | 0 <= c < |all| ensures ChunkInv(env, t, all[c]) {
      if c >= |chunks| {
        assert all[c] == NewChunks(rest)[c - |chunks|];
      } else if c != j {
        assert all[c] == chunks[c];
      }
    }
  }

  lemma SplitCredits(env: P.Env, t: Target, chunks: seq<Chunk>, j: nat, done: Chunk, cursor: Key, rows: int,
                     rest: seq<Partition.Piece>)
    requires j < |chunks| && CutInto(env, t, chunks[j], cursor, rows, rest)
    requires done.status == Success && done.rowsRead == rows
    ensures Credits(env, chunks[j := done] + NewChunks(rest)) ==
            Credits(env, chunks) + Partition.Total(env.table, rest) - |Select(env.table, chunks[j].bounds, cursor)|
  {
    CreditsUpdate(env, chunks, j, done);
    CreditsAppend(env, chunks[j := done], NewChunks(rest));
    NewChunksCredit(env, rest);
  }

  lemma SplitLinked(env: P.Env, chunks: seq<Chunk>, attempts: seq<Attempt>, j: nat, done: Chunk, more: seq<Chunk>)
    requires j < |chunks| && AllLinked(env, chunks, attempts) && done.status == Success
    ensures AllLinked(env, chunks[j := done] + more, attempts)
  {
    forall i | 0 <= i < |attempts| ensures Linked(env, chunks[j := done] + more, attempts[i]) {
      assert Linked(env, chunks, attempts[i]);
    }
  }

  lemma YieldCuts(env: P.Env, t: Target, a: Attempt, c: Chunk, split: Split)
    requires P.WellFormed(env) && RunInv(env, t, a.run) && ChunkInv(env, t, c) && c.status != Success
    requires a.run.bounds == c.bounds
    requires a.run.startRows + |P.Todo(env, a.run)| == |Select(env.table, c.bounds, c.origin)|
    requires a.run.writer.Returned? && a.run.writer.outcome.Finished?
    requires Remainders(c.bounds, a.run.committedCursor, split) != []
    ensures CutInto(env, t, c, a.run.committedCursor, a.run.rowsRead,
                    Remainders(c.bounds, a.run.committedCursor, split))
  {
    var cursor := a.run.committedCursor;
    var rest := Remainders(c.bounds, cursor, split);
    FinishedPosition(env, t, a.run);
    RemaindersReach(env.table, c.bounds, cursor, split);
    RemainderShapes(c.bounds, cursor, split);
    forall p | 0 <= p < |rest|
      ensures ChunkInv(env, t, Chunk(rest[p].bounds, rest[p].cursor, rest[p].cursor, 0, Pending, 0))
    {
      RemainderSettled(env, t, c.bounds, cursor, rest[p]);
    }
  }

  /** A report that cuts a chunk into remainders. */
  predicate Cuts(s: State, e: Event) {
    && e.Report? && Reporting(s, e.attempt) && s.attempts[e.attempt].run.writer.outcome.stopped
    && CutPieces(s, e) != []
  }

  function CutPieces(s: State, e: Event): seq<Partition.Piece>
    requires e.Report? && Reporting(s, e.attempt)
  {
    Remainders(CutPiece(s, e).bounds, CutPiece(s, e).cursor, e.split)
  }

  /** What the chunk had left when it was cut. */
  function CutPiece(s: State, e: Event): Partition.Piece
    requires e.Report? && Reporting(s, e.attempt)
  {
    var a := s.attempts[e.attempt];
    Partition.Piece(s.chunks[a.chunk].bounds, a.run.committedCursor)
  }

  /** The rows that the remainders of a cut read more often than once. */
  function Extra(env: P.Env, s: State, e: Event): int {
    if Cuts(s, e) then
      Partition.Total(env.table, CutPieces(s, e)) - |Select(env.table, CutPiece(s, e).bounds, CutPiece(s, e).cursor)|
    else 0
  }

  lemma CutKeeps(env: P.Env, t0: Target, s: State, i: nat, split: Split)
    requires P.WellFormed(env) && Inv(env, t0, s) && Cuts(s, Report(i, split))
    ensures var s' := CompleteYielded(s, s.attempts[i], split);
            Inv(env, t0, s') && Credits(env, s'.chunks) == Credits(env, s.chunks) + Extra(env, s, Report(i, split))
  {
    var a := s.attempts[i];
    var c, cursor := s.chunks[a.chunk], a.run.committedCursor;
    var rest := Remainders(c.bounds, cursor, split);
    assert RunInv(env, s.target, a.run) && Linked(env, s.chunks, a) && ChunkInv(env, s.target, c);
    var done := c.(bounds := CutAt(c.bounds, cursor), status := Success, rowsRead := a.run.rowsRead, cursor := cursor);
    YieldCuts(env, s.target, a, c, split);
    CutIsDone(env, s.target, c.bounds, cursor);
    SplitChunksInv(env, s.target, s.chunks, a.chunk, done, cursor, a.run.rowsRead, rest);
    SplitCovered(env, s.target, s.chunks, a.chunk, done, cursor, a.run.rowsRead, rest);
    SplitCredits(env, s.target, s.chunks, a.chunk, done, cursor, a.run.rowsRead, rest);
    SplitLinked(env, s.chunks, s.attempts, a.chunk, done, NewChunks(rest));
  }

  /** Cutting a chunk, wherever planning found points to cut it at, keeps the invariant. */
  lemma YieldKeeps(env: P.Env, t0: Target, s: State, i: nat, split: Split)
    requires P.WellFormed(env) && Inv(env, t0, s) && Reporting(s, i) && s.attempts[i].run.writer.outcome.stopped
    ensures var s' := CompleteYielded(s, s.attempts[i], split);
            Inv(env, t0, s') && Credits(env, s'.chunks) == Credits(env, s.chunks) + Extra(env, s, Report(i, split))
  {
    var a := s.attempts[i];
    if Cuts(s, Report(i, split)) {
      CutKeeps(env, t0, s, i, split);
    } else if AtEnd(s.chunks[a.chunk].bounds, a.run.committedCursor) {
      YieldAtEndKeeps(env, t0, s, i);
    }
  }

  lemma ReportShape(env: P.Env, s: State, i: nat, split: Split)
    ensures !Reporting(s, i) ==> Next(env, s, Report(i, split)) == s && Extra(env, s, Report(i, split)) == 0
    ensures Reporting(s, i) && !s.attempts[i].run.writer.outcome.stopped ==>
              Next(env, s, Report(i, split)) == Complete(s, s.attempts[i]) && Extra(env, s, Report(i, split)) == 0
    ensures Reporting(s, i) && s.attempts[i].run.writer.outcome.stopped ==>
              Next(env, s, Report(i, split)) == CompleteYielded(s, s.attempts[i], split)
  {
  }

  lemma ReportKeeps(env: P.Env, t0: Target, s: State, i: nat, split: Split)
    requires P.WellFormed(env) && Inv(env, t0, s)
    ensures var s' := Next(env, s, Report(i, split));
            Inv(env, t0, s') && Credits(env, s'.chunks) == Credits(env, s.chunks) + Extra(env, s, Report(i, split))
  {
    ReportShape(env, s, i, split);
    if Reporting(s, i) {
      if s.attempts[i].run.writer.outcome.stopped {
        YieldKeeps(env, t0, s, i, split);
      } else {
        CompleteKeeps(env, t0, s, i);
      }
    }
  }

  /** Expiry, failure reports and crashes leave cursors, counters and rows alone. */
  lemma StatusKeeps(env: P.Env, t0: Target, s: State, c: nat, status: Status)
    requires Inv(env, t0, s) && c < |s.chunks| && s.chunks[c].status == Running && status != Success
    ensures Inv(env, t0, s.(chunks := s.chunks[c := s.chunks[c].(status := status)]))
    ensures Credits(env, s.chunks[c := s.chunks[c].(status := status)]) == Credits(env, s.chunks)
  {
    ReplaceChunk(env, t0, s, c, s.chunks[c].(status := status));
  }

  lemma ExpireKeeps(env: P.Env, t0: Target, s: State, c: nat)
    requires Inv(env, t0, s)
    ensures Inv(env, t0, Next(env, s, Expire(c)))
    ensures SameCredits(env, s, Next(env, s, Expire(c)))
  {
    if c < |s.chunks| && s.chunks[c].status == Running {
      StatusKeeps(env, t0, s, c, Pending);
    }
  }

  lemma CrashKeeps(env: P.Env, t0: Target, s: State, i: nat)
    requires Inv(env, t0, s)
    ensures Inv(env, t0, Next(env, s, Crash(i)))
  {
    if i < |s.attempts| {
      assert RunInv(env, s.target, s.attempts[i].run) && Linked(env, s.chunks, s.attempts[i]);
    }
  }

  lemma ReportFailureShape(env: P.Env, s: State, i: nat, retry: bool)
    requires AllLinked(env, s.chunks, s.attempts)
    ensures var s' := Next(env, s, ReportFailure(i, retry));
            s' == s || (&& i < |s.attempts| && s.attempts[i].chunk < |s.chunks|
                        && s.chunks[s.attempts[i].chunk].status == Running
                        && var c := s.attempts[i].chunk;
                           s' == s.(chunks := s.chunks[c := s.chunks[c].(status := if retry then Pending else GaveUp)]))
  {
  }

  lemma ReportFailureKeeps(env: P.Env, t0: Target, s: State, i: nat, retry: bool)
    requires Inv(env, t0, s)
    ensures Inv(env, t0, Next(env, s, ReportFailure(i, retry)))
    ensures SameCredits(env, s, Next(env, s, ReportFailure(i, retry)))
  {
    ReportFailureShape(env, s, i, retry);
    if Next(env, s, ReportFailure(i, retry)) != s {
      StatusKeeps(env, t0, s, s.attempts[i].chunk, if retry then Pending else GaveUp);
    }
  }

  lemma NoCutNoExtra(env: P.Env, s: State, e: Event)
    requires !e.Report?
    ensures Extra(env, s, e) == 0
    ensures e.Local? || e.Write? || e.Land? || e.Crash? ==> Next(env, s, e).chunks == s.chunks
  {
  }

  lemma NextKeeps(env: P.Env, t0: Target, s: State, e: Event)
    requires P.WellFormed(env) && Consistent(env) && Inv(env, t0, s)
    ensures Inv(env, t0, Next(env, s, e))
    ensures Credits(env, Next(env, s, e).chunks) == Credits(env, s.chunks) + Extra(env, s, e)
  {
    if !e.Report? {
      NoCutNoExtra(env, s, e);
    }
    match e
    case Claim(c, w) => ClaimKeeps(env, t0, s, c, w);
    case Local(i, step) => LocalKeeps(env, t0, s, i, step);
    case Write(i) => WriteKeeps(env, t0, s, i);
    case Land(i, k) => LandKeeps(env, t0, s, i, k);
    case CommitLost(i) => CommitLostKeeps(env, t0, s, i);
    case CommitAcked(i, ack) => CommitAckedKeeps(env, t0, s, i, ack);
    case Report(i, split) => ReportKeeps(env, t0, s, i, split);
    case Expire(c) => ExpireKeeps(env, t0, s, c);
    case Crash(i) => CrashKeeps(env, t0, s, i);
    case ReportFailure(i, retry) => ReportFailureKeeps(env, t0, s, i, retry);
  }

  function Extras(env: P.Env, s: State, events: seq<Event>): int
    decreases |events|
  {
    if events == [] then 0 else Extra(env, s, events[0]) + Extras(env, Next(env, s, events[0]), events[1..])
  }

  lemma {:induction false} ExecKeeps(env: P.Env, t0: Target, s: State, events: seq<Event>)
    requires P.WellFormed(env) && Consistent(env) && Inv(env, t0, s)
    ensures Inv(env, t0, Exec(env, s, events))
    ensures Credits(env, Exec(env, s, events).chunks) == Credits(env, s.chunks) + Extras(env, s, events)
    decreases |events|
  {
    if events != [] {
      NextKeeps(env, t0, s, events[0]);
      ExecKeeps(env, t0, Next(env, s, events[0]), events[1..]);
    }
  }

  // ----- when cuts read no row twice

  /** Every cut of the run gives each row that was left to exactly one remainder. */
  ghost predicate AllDivide(env: P.Env, s: State, events: seq<Event>)
    decreases |events|
  {
    events != [] ==>
      && (Cuts(s, events[0]) ==> Partition.Divides(env.table, CutPieces(s, events[0]), CutPiece(s, events[0])))
      && AllDivide(env, Next(env, s, events[0]), events[1..])
  }

  /** Every keyset chunk that the run cuts is cut at sorted points. */
  ghost predicate AllSorted(env: P.Env, s: State, events: seq<Event>)
    decreases |events|
  {
    events != [] ==>
      && (Cuts(s, events[0]) ==> CutSorted(CutPiece(s, events[0]), events[0].split))
      && AllSorted(env, Next(env, s, events[0]), events[1..])
  }

  ghost predicate CutSorted(p: Partition.Piece, split: Split) {
    p.bounds.KeysetBounds? ==>
      && Partition.NonEmptyKeys(split.found)
      && Partition.Ascending(p.cursor, Points(p.cursor, p.bounds.upper, split), p.bounds.upper)
  }

  lemma CutCursor(env: P.Env, t0: Target, s: State, e: Event)
    requires P.WellFormed(env) && Inv(env, t0, s) && Cuts(s, e)
    ensures KeysFit(env, CutPiece(s, e).bounds) && Inside(CutPiece(s, e).bounds, CutPiece(s, e).cursor)
  {
    var a := s.attempts[e.attempt];
    assert RunInv(env, s.target, a.run) && Linked(env, s.chunks, a) && ChunkInv(env, s.target, s.chunks[a.chunk]);
    FinishedPosition(env, s.target, a.run);
  }

  lemma ExtraMeaning(env: P.Env, t0: Target, s: State, e: Event)
    requires P.WellFormed(env) && Inv(env, t0, s)
    ensures Extra(env, s, e) >= 0
    ensures Extra(env, s, e) == 0 <==> (Cuts(s, e) ==> Partition.Divides(env.table, CutPieces(s, e), CutPiece(s, e)))
  {
    if Cuts(s, e) {
      var p := CutPiece(s, e);
      CutCursor(env, t0, s, e);
      RemaindersReach(env.table, p.bounds, p.cursor, e.split);
      Partition.DivisionKeepsCount(env.table, CutPieces(s, e), p);
    }
  }

  lemma {:induction false} ExtrasMeaning(env: P.Env, t0: Target, s: State, events: seq<Event>)
    requires P.WellFormed(env) && Consistent(env) && Inv(env, t0, s)
    ensures Extras(env, s, events) >= 0
    ensures Extras(env, s, events) == 0 <==> AllDivide(env, s, events)
    decreases |events|
  {
    if events != [] {
      ExtraMeaning(env, t0, s, events[0]);
      NextKeeps(env, t0, s, events[0]);
      ExtrasMeaning(env, t0, Next(env, s, events[0]), events[1..]);
    }
  }

  lemma SortedCutDivides(env: P.Env, t0: Target, s: State, e: Event)
    requires P.WellFormed(env) && Inv(env, t0, s) && Cuts(s, e) && CutSorted(CutPiece(s, e), e.split)
    ensures Partition.Divides(env.table, CutPieces(s, e), CutPiece(s, e))
  {
    CutCursor(env, t0, s, e);
    RemaindersDivide(env.table, CutPiece(s, e).bounds, CutPiece(s, e).cursor, e.split);
  }

  lemma {:induction false} SortedCutsDivide(env: P.Env, t0: Target, s: State, events: seq<Event>)
    requires P.WellFormed(env) && Consistent(env) && Inv(env, t0, s) && AllSorted(env, s, events)
    ensures AllDivide(env, s, events)
    decreases |events|
  {
    if events != [] {
      if Cuts(s, events[0]) {
        SortedCutDivides(env, t0, s, events[0]);
      }
      NextKeeps(env, t0, s, events[0]);
      SortedCutsDivide(env, t0, Next(env, s, events[0]), events[1..]);
    }
  }

  // ----- the theorems

  const WHOLE := Partition.Piece(KeysetBounds([], []), [])

  /** A plan: pieces that between them have to read every row. */
  ghost predicate Plans(env: P.Env, plan: seq<Partition.Piece>) {
    && (forall p | 0 <= p < |plan| :: plan[p].cursor == [] && KeysFit(env, plan[p].bounds))
    && Partition.Reaches(env.table, plan, WHOLE)
  }

  function Initial(plan: seq<Partition.Piece>, t0: Target): State {
    State(NewChunks(plan), [], t0)
  }

  lemma {:induction false} SelectNoKeys<T>(rows: seq<Keyed<T>>)
    requires forall i | 0 <= i < |rows| :: rows[i].key != []
    ensures Select(rows, KeysetBounds([], []), []) == rows
  {
    if rows != [] {
      SelectNoKeys(rows[1..]);
    }
  }

  lemma InitialInv(env: P.Env, plan: seq<Partition.Piece>, t0: Target)
    requires P.WellFormed(env) && Plans(env, plan)
    ensures Inv(env, t0, Initial(plan, t0))
    ensures Credits(env, Initial(plan, t0).chunks) == Partition.Total(env.table, plan)
  {
    NewChunksAt(plan);
    NewChunksCredit(env, plan);
    forall row | row in env.table ensures SomeReads(NewChunks(plan), row.key) {
      var i :| 0 <= i < |env.table| && env.table[i] == row;
      assert Partition.Hits(plan, env.table[i].key) >= 1;
      Partition.HitExists(plan, row.key);
      var p :| 0 <= p < |plan| && Admits(plan[p].bounds, plan[p].cursor, row.key);
      assert StillReads(NewChunks(plan)[p], row.key);
    }
  }

  /** A crash can replay rows, never skip them: whatever the attempts, connectors and
      control plane did, a row of a chunk at or before its durable cursor is in the
      target with its image, and so is every row of a completed chunk. */
  lemma NeverSkip(env: P.Env, plan: seq<Partition.Piece>, t0: Target, events: seq<Event>)
    requires P.WellFormed(env) && Consistent(env) && Plans(env, plan)
    ensures var s := Exec(env, Initial(plan, t0), events);
            forall c, row | 0 <= c < |s.chunks| && row in env.table && Admits(s.chunks[c].bounds, [], row.key) ::
              (s.chunks[c].status == Success || !Admits(s.chunks[c].bounds, s.chunks[c].cursor, row.key))
              ==> Done(env, s.target, row)
  {
    InitialInv(env, plan, t0);
    ExecKeeps(env, t0, Initial(plan, t0), events);
    var s := Exec(env, Initial(plan, t0), events);
    forall c, row | 0 <= c < |s.chunks| && row in env.table && Admits(s.chunks[c].bounds, [], row.key)
      ensures (s.chunks[c].status == Success || !Admits(s.chunks[c].bounds, s.chunks[c].cursor, row.key))
              ==> Done(env, s.target, row)
    {
      assert ChunkInv(env, s.target, s.chunks[c]);
    }
  }

  /** An attempt that returns without an error, was not told to stop and whose parent was
      not cancelled has copied its whole chunk, whatever earlier attempts did to it. */
  lemma FinishedAttemptCopiedItsChunk(env: P.Env, plan: seq<Partition.Piece>, t0: Target, events: seq<Event>, i: nat)
    requires P.WellFormed(env) && Consistent(env) && Plans(env, plan)
    requires i < |Exec(env, Initial(plan, t0), events).attempts|
    ensures var s := Exec(env, Initial(plan, t0), events);
            var run := s.attempts[i].run;
            run.writer == P.Returned(P.Finished(false)) && !run.cancelled ==>
              forall row | row in env.table && Admits(run.bounds, [], row.key) :: Done(env, s.target, row)
  {
    InitialInv(env, plan, t0);
    ExecKeeps(env, t0, Initial(plan, t0), events);
    var s := Exec(env, Initial(plan, t0), events);
    var run := s.attempts[i].run;
    assert RunInv(env, s.target, run);
    if run.writer == P.Returned(P.Finished(false)) && !run.cancelled {
      FinishedPosition(env, s.target, run);
      NothingLeftMeansAllDone(env, s.target, run.bounds, run.committedCursor);
    }
  }

  /** Rows of the bounds at or before the cursor. */
  function Behind(rows: seq<Keyed<Transform.Row>>, b: Bounds, cursor: Key): nat {
    if rows == [] then 0
    else (if Admits(b, [], rows[0].key) && !Admits(b, cursor, rows[0].key) then 1 else 0) + Behind(rows[1..], b, cursor)
  }

  lemma {:induction false} BehindAndAhead(rows: seq<Keyed<Transform.Row>>, b: Bounds, cursor: Key)
    requires Inside(b, cursor)
    ensures Behind(rows, b, cursor) + |Select(rows, b, cursor)| == |Select(rows, b, [])|
  {
    if rows != [] {
      BehindAndAhead(rows[1..], b, cursor);
      if Admits(b, cursor, rows[0].key) {
        InsideAdmits(b, cursor, rows[0].key);
      }
    }
  }

  /** Durable counters match durable cursors: a planned chunk's counter is the number of
      its rows at or before its durable cursor (a remainder of a yielded chunk counts from
      the cursor it was created with). The rows all chunks answer for are what the plan
      reads, and what cuts at overlapping points read again. */
  lemma CountersMatchCursors(env: P.Env, plan: seq<Partition.Piece>, t0: Target, events: seq<Event>)
    requires P.WellFormed(env) && Consistent(env) && Plans(env, plan)
    ensures var s := Exec(env, Initial(plan, t0), events);
            && (forall c | 0 <= c < |s.chunks| && s.chunks[c].status != Success ::
                  && s.chunks[c].rowsRead + |Select(env.table, s.chunks[c].bounds, s.chunks[c].cursor)|
                     == |Select(env.table, s.chunks[c].bounds, s.chunks[c].origin)|
                  && (s.chunks[c].origin == [] ==>
                        s.chunks[c].rowsRead == Behind(env.table, s.chunks[c].bounds, s.chunks[c].cursor)))
            && Credits(env, s.chunks) == Partition.Total(env.table, plan) + Extras(env, Initial(plan, t0), events)
  {
    InitialInv(env, plan, t0);
    ExecKeeps(env, t0, Initial(plan, t0), events);
    var s := Exec(env, Initial(plan, t0), events);
    forall c | 0 <= c < |s.chunks| && s.chunks[c].status != Success
      ensures s.chunks[c].rowsRead + |Select(env.table, s.chunks[c].bounds, s.chunks[c].cursor)|
              == |Select(env.table, s.chunks[c].bounds, s.chunks[c].origin)|
      ensures s.chunks[c].origin == [] ==>
                s.chunks[c].rowsRead == Behind(env.table, s.chunks[c].bounds, s.chunks[c].cursor)
    {
      assert ChunkInv(env, s.target, s.chunks[c]);
      BehindAndAhead(env.table, s.chunks[c].bounds, s.chunks[c].cursor);
    }
  }

  /** No row is ever left out of the count, and none is counted twice exactly if the plan
      and every cut give each row to one chunk. */
  lemma CreditsExactIffDivided(env: P.Env, plan: seq<Partition.Piece>, t0: Target, events: seq<Event>)
    requires P.WellFormed(env) && Consistent(env) && Plans(env, plan)
    ensures var credits := Credits(env, Exec(env, Initial(plan, t0), events).chunks);
            && credits >= |env.table|
            && (credits == |env.table| <==>
                  Partition.Divides(env.table, plan, WHOLE) && AllDivide(env, Initial(plan, t0), events))
  {
    InitialInv(env, plan, t0);
    ExecKeeps(env, t0, Initial(plan, t0), events);
    ExtrasMeaning(env, t0, Initial(plan, t0), events);
    Partition.DivisionKeepsCount(env.table, plan, WHOLE);
    SelectNoKeys(env.table);
  }

  ghost predicate AllComplete(chunks: seq<Chunk>) {
    forall c | 0 <= c < |chunks| :: chunks[c].status == Success
  }

  function RowsRead(chunks: seq<Chunk>): int {
    if chunks == [] then 0 else chunks[0].rowsRead + RowsRead(chunks[1..])
  }

  lemma {:induction false} CompleteCredits(env: P.Env, chunks: seq<Chunk>)
    requires AllComplete(chunks)
    ensures Credits(env, chunks) == RowsRead(chunks)
  {
    if chunks != [] {
      assert chunks[0].status == Success;
      CompleteCredits(env, chunks[1..]);
    }
  }

  /** A target that holds every image and is otherwise untouched is unique. */
  lemma CopiesAgree(env: P.Env, t0: Target, t: Target, u: Target)
    requires Untouched(env, t0, t) && Holds(env, t) && Untouched(env, t0, u) && Holds(env, u)
    ensures t == u
  {
    forall k | k in t ensures k in u && u[k] == t[k] {
      CopiesAgreeAt(env, t0, t, u, k);
    }
    forall k | k in u ensures k in t {
      CopiesAgreeAt(env, t0, u, t, k);
    }
  }

  predicate HasKey(env: P.Env, row: Keyed<Transform.Row>, k: Transform.Row) {
    P.Image(env, row).Ok? && TargetKey(env, P.Image(env, row).value) == k
  }

  lemma CopiesAgreeAt(env: P.Env, t0: Target, t: Target, u: Target, k: Transform.Row)
    requires Untouched(env, t0, t) && Holds(env, t) && Untouched(env, t0, u) && Holds(env, u) && k in t
    ensures k in u && u[k] == t[k]
  {
    if row :| row in env.table && HasKey(env, row, k) {
      assert Done(env, t, row) && Done(env, u, row);
    } else {
      assert forall row, v | row in env.table :: ImageAt(env, row, k, v) ==> HasKey(env, row, k);
      assert t[k] == t0[k];
    }
  }

  lemma CompleteHolds(env: P.Env, s: State)
    requires Covered(env, s.target, s.chunks) && AllComplete(s.chunks)
    ensures Holds(env, s.target)
  {
    assert forall row | row in env.table :: !SomeReads(s.chunks, row.key);
  }

  /** Once every chunk is complete, the target is exactly what one pass over the table
      would have produced, however the chunks were planned and cut. The chunk counters add
      up to the table exactly if no row was given to two chunks. */
  lemma CompletionEqualsOnePass(env: P.Env, plan: seq<Partition.Piece>, t0: Target, events: seq<Event>)
    requires P.WellFormed(env) && Consistent(env) && Plans(env, plan)
    ensures var s := Exec(env, Initial(plan, t0), events);
            AllComplete(s.chunks) ==>
              && P.AllTranslate(env)
              && s.target == UpsertAll(env, t0, env.table)
              && RowsRead(s.chunks) >= |env.table|
              && (RowsRead(s.chunks) == |env.table| <==>
                    Partition.Divides(env.table, plan, WHOLE) && AllDivide(env, Initial(plan, t0), events))
  {
    InitialInv(env, plan, t0);
    ExecKeeps(env, t0, Initial(plan, t0), events);
    var s := Exec(env, Initial(plan, t0), events);
    if AllComplete(s.chunks) {
      CompleteCredits(env, s.chunks);
      CreditsExactIffDivided(env, plan, t0, events);
      CompleteTranslates(env, t0, s);
    }
  }

  lemma CompleteTranslates(env: P.Env, t0: Target, s: State)
    requires Consistent(env) && Inv(env, t0, s) && AllComplete(s.chunks)
    ensures P.AllTranslate(env) && s.target == UpsertAll(env, t0, env.table)
  {
    CompleteHolds(env, s);
    forall i | 0 <= i < |env.table| ensures P.Image(env, env.table[i]).Ok? {
      assert Done(env, s.target, env.table[i]);
    }
    UpsertAllDone(env, t0, env.table);
    UpsertAllUntouched(env, t0, t0, env.table);
    assert Holds(env, UpsertAll(env, t0, env.table));
    CopiesAgree(env, t0, s.target, UpsertAll(env, t0, env.table));
  }
}
