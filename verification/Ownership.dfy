/** Who may change a chunk record: only the live attempt of the worker that holds the chunk,
    so a stale attempt of another worker changes nothing, and durable cursors go forward. */
module Ownership {
  import opened Wrappers
  import opened Keys
  import opened Reading
  import Partition
  import P = Pipeline
  import opened Worker
  import opened Yield
  import Finishing

  /** The attempt works for the worker that holds its chunk, and the chunk is running. */
  predicate Holds(s: State, i: nat) {
    && i < |s.attempts| && s.attempts[i].alive && s.attempts[i].chunk < |s.chunks|
    && s.chunks[s.attempts[i].chunk].status == Running
    && s.chunks[s.attempts[i].chunk].owner == s.attempts[i].worker
  }

  // ----- one event

  predicate Claimed(e: Event, c: nat, was: Chunk, now: Chunk) {
    e.Claim? && e.chunk == c && was.status == Pending && now == was.(status := Running, owner := e.worker)
  }

  predicate Expired(e: Event, c: nat, was: Chunk, now: Chunk) {
    e.Expire? && e.chunk == c && was.status == Running && now == was.(status := Pending)
  }

  predicate Committed(s: State, e: Event, c: nat, was: Chunk, now: Chunk) {
    && (e.CommitLost? || e.CommitAcked?) && Holds(s, e.attempt) && s.attempts[e.attempt].chunk == c
    && var run := s.attempts[e.attempt].run;
       run.writer.Committing? && now == was.(cursor := run.writer.batch.cursor, rowsRead := run.rowsRead)
  }

  predicate Completed(s: State, e: Event, c: nat, was: Chunk, now: Chunk) {
    && e.Report? && Holds(s, e.attempt) && s.attempts[e.attempt].chunk == c
    && var run := s.attempts[e.attempt].run;
       && !run.cancelled && run.writer.Returned? && run.writer.outcome.Finished?
       && now.status == Success && now.rowsRead == run.rowsRead && now.origin == was.origin && now.owner == was.owner
       && (if run.writer.outcome.stopped then
             && now.cursor == run.committedCursor
             && (now.bounds == was.bounds || (now.cursor != [] && now.bounds == CutAt(was.bounds, now.cursor)))
           else now.cursor == was.cursor && now.bounds == was.bounds)
  }

  predicate Refused(s: State, e: Event, c: nat, was: Chunk, now: Chunk) {
    && e.ReportFailure? && Holds(s, e.attempt) && s.attempts[e.attempt].chunk == c
    && var run := s.attempts[e.attempt].run;
       && !run.cancelled && run.writer == P.Returned(P.Failed)
       && now == was.(status := if e.retry then Pending else GaveUp)
  }

  /** The only ways in which an event changes a chunk record. */
  lemma ChunkTransitions(env: P.Env, s: State, e: Event, c: nat)
    requires c < |s.chunks|
    ensures var s' := Next(env, s, e);
            && c < |s'.chunks|
            && var was, now := s.chunks[c], s'.chunks[c];
               now == was || Claimed(e, c, was, now) || Expired(e, c, was, now) || Committed(s, e, c, was, now)
               || Completed(s, e, c, was, now) || Refused(s, e, c, was, now)
  {
  }

  /** The progress of a chunk (cursor, counter, bounds, completion) changes only by a commit
      or a report of the attempt that holds it. */
  lemma OnlyTheHolderProgresses(env: P.Env, s: State, e: Event, c: nat)
    requires c < |s.chunks|
    ensures var was, now := s.chunks[c], Next(env, s, e).chunks[c];
            now.cursor != was.cursor || now.rowsRead != was.rowsRead || now.bounds != was.bounds
            || (now.status == Success) != (was.status == Success) ==>
              && (e.CommitLost? || e.CommitAcked? || e.Report?)
              && e.attempt < |s.attempts| && s.attempts[e.attempt].alive && s.attempts[e.attempt].chunk == c
              && was.status == Running && was.owner == s.attempts[e.attempt].worker
  {
    ChunkTransitions(env, s, e, c);
  }

  /** A commit or report of an attempt whose chunk another worker holds, or nobody, is refused. */
  lemma StaleChangesNothing(env: P.Env, s: State, e: Event)
    requires e.CommitLost? || e.CommitAcked? || e.Report? || e.ReportFailure?
    requires e.attempt < |s.attempts| && s.attempts[e.attempt].chunk < |s.chunks|
    requires var a := s.attempts[e.attempt]; s.chunks[a.chunk].status != Running || s.chunks[a.chunk].owner != a.worker
    ensures Next(env, s, e) == s
  {
  }

  /** What the holder sends is stored. */
  lemma HolderIsObeyed(env: P.Env, s: State, i: nat, ack: P.Ack, retry: bool)
    requires Holds(s, i)
    ensures var c, run := s.attempts[i].chunk, s.attempts[i].run;
            && (run.writer.Committing? ==>
                  && Next(env, s, CommitAcked(i, ack)).chunks
                     == s.chunks[c := s.chunks[c].(cursor := run.writer.batch.cursor, rowsRead := run.rowsRead)]
                  && Next(env, s, CommitLost(i)).chunks == Next(env, s, CommitAcked(i, ack)).chunks)
            && (run.writer == P.Returned(P.Failed) && !run.cancelled ==>
                  Next(env, s, ReportFailure(i, retry)).chunks
                  == s.chunks[c := s.chunks[c].(status := if retry then Pending else GaveUp)])
            && (run.writer == P.Returned(P.Finished(false)) && !run.cancelled ==>
                  Next(env, s, Report(i, Split(1, []))).chunks
                  == s.chunks[c := s.chunks[c].(status := Success, rowsRead := run.rowsRead)])
  {
  }

  /** A pending chunk can be claimed, and only such a one; the attempt starts from the
      durable cursor and counter. */
  lemma ClaimsArePending(env: P.Env, s: State, c: nat, w: nat)
    ensures var s' := Next(env, s, Claim(c, w));
            if c < |s.chunks| && s.chunks[c].status == Pending then
              && s'.chunks == s.chunks[c := s.chunks[c].(status := Running, owner := w)]
              && s'.attempts == s.attempts
                 + [Attempt(c, w, P.Start(env, s.chunks[c].bounds, s.chunks[c].cursor, s.chunks[c].rowsRead), true)]
            else s' == s
  {
  }

  /** A crashed attempt sends nothing any more. */
  lemma CrashedAttemptsAreSilent(env: P.Env, s: State, i: nat, e: Event)
    requires i < |s.attempts|
    ensures Next(env, s, Crash(i)) == s.(attempts := s.attempts[i := s.attempts[i].(alive := false)])
    ensures !s.attempts[i].alive ==>
              && (e.Local? || e.Write? || e.CommitLost? || e.CommitAcked? || e.Report? || e.ReportFailure?) && e.attempt == i ==>
              Next(env, s, e) == s
  {
  }

  /** A completed chunk stays as it is. */
  lemma {:induction false} SuccessIsFinal(env: P.Env, s: State, events: seq<Event>, c: nat)
    requires c < |s.chunks| && s.chunks[c].status == Success
    ensures var s' := Exec(env, s, events); c < |s'.chunks| && s'.chunks[c] == s.chunks[c]
    decreases |events|
  {
    if events != [] {
      ChunkTransitions(env, s, events[0], c);
      SuccessIsFinal(env, Next(env, s, events[0]), events[1..], c);
    }
  }

  // ----- cursors go forward

  /** No worker has claimed a chunk twice. */
  ghost predicate NewWorkers(attempts: seq<Attempt>) {
    forall i, j | 0 <= i < j < |attempts| && attempts[i].chunk == attempts[j].chunk :: attempts[i].worker != attempts[j].worker
  }

  /** The attempt that holds a chunk knows its durable cursor, unless it has failed. */
  ghost predicate HoldersKnow(s: State) {
    forall i: nat | Holds(s, i) && !P.Failing(s.attempts[i].run) ::
      s.chunks[s.attempts[i].chunk].cursor == s.attempts[i].run.committedCursor
  }

  ghost predicate Extends(a: seq<Attempt>, b: seq<Attempt>) {
    && |a| <= |b|
    && forall i | 0 <= i < |a| :: b[i].chunk == a[i].chunk && b[i].worker == a[i].worker && (b[i].alive ==> a[i].alive)
  }

  lemma AttemptsGrow(env: P.Env, s: State, e: Event)
    ensures Extends(s.attempts, Next(env, s, e).attempts)
  {
  }

  lemma {:induction false} AttemptsKeepGrowing(env: P.Env, s: State, events: seq<Event>)
    ensures Extends(s.attempts, Exec(env, s, events).attempts)
    decreases |events|
  {
    if events != [] {
      AttemptsGrow(env, s, events[0]);
      AttemptsKeepGrowing(env, Next(env, s, events[0]), events[1..]);
    }
  }

  lemma FewerAreNew(a: seq<Attempt>, b: seq<Attempt>)
    requires Extends(a, b) && NewWorkers(b)
    ensures NewWorkers(a)
  {
  }

  lemma LocalKeepsCommitted(env: P.Env, r: P.Run, e: P.Event)
    requires !e.CommitAcks?
    ensures var r' := P.Step(env, r, e); r'.committedCursor == r.committedCursor && (P.Failing(r) ==> P.Failing(r'))
  {
  }

  /** What becomes of the run of an attempt that was there. */
  lemma RunAfter(env: P.Env, s: State, e: Event, i: nat)
    requires i < |s.attempts|
    ensures var was, now := s.attempts[i].run, Next(env, s, e).attempts[i].run;
            || (now.committedCursor == was.committedCursor && (P.Failing(was) ==> P.Failing(now)))
            || (e.CommitAcked? && e.attempt == i && Holds(s, i) && was.writer.Committing?
                && now.committedCursor == was.writer.batch.cursor)
  {
    match e
    case Local(j, step) =>
      if Live(s, j) && !step.WriteOk? && !step.CommitAcks? {
        LocalKeepsCommitted(env, s.attempts[j].run, step);
      }
    case Write(j) =>
      if Live(s, j) {
        LocalKeepsCommitted(env, s.attempts[j].run, P.WriteOk);
      }
    case CommitLost(j) =>
      if Live(s, j) {
        LocalKeepsCommitted(env, s.attempts[j].run, P.CommitFails);
      }
    case _ =>
  }

  lemma LostFails(env: P.Env, s: State, i: nat)
    requires Holds(s, i) && s.attempts[i].run.writer.Committing?
    ensures P.Failing(Next(env, s, CommitLost(i)).attempts[i].run)
  {
  }

  lemma OneHolder(attempts: seq<Attempt>, i: nat, j: nat)
    requires NewWorkers(attempts) && i < j < |attempts| && attempts[i].chunk == attempts[j].chunk
    ensures attempts[i].worker != attempts[j].worker
  {
  }

  lemma HolderStillKnows(env: P.Env, s: State, e: Event, i: nat)
    requires AllLinked(env, s.chunks, s.attempts) && HoldersKnow(s) && NewWorkers(Next(env, s, e).attempts)
    requires var s' := Next(env, s, e); Holds(s', i) && !P.Failing(s'.attempts[i].run)
    ensures var s' := Next(env, s, e); s'.chunks[s'.attempts[i].chunk].cursor == s'.attempts[i].run.committedCursor
  {
    var s' := Next(env, s, e);
    if i < |s.attempts| {
      AttemptsGrow(env, s, e);
      assert Linked(env, s.chunks, s.attempts[i]);
      var c := s.attempts[i].chunk;
      ChunkTransitions(env, s, e, c);
      RunAfter(env, s, e, i);
      if Claimed(e, c, s.chunks[c], s'.chunks[c]) {
        ClaimsArePending(env, s, c, e.worker);
        OneHolder(s'.attempts, i, |s.attempts|);
      } else if Committed(s, e, c, s.chunks[c], s'.chunks[c]) {
        assert s'.attempts[e.attempt].worker == s.attempts[e.attempt].worker;
        assert e.attempt == i;
        if e.CommitLost? {
          LostFails(env, s, i);
        }
      }
    }
  }

  lemma NextKeepsHolders(env: P.Env, s: State, e: Event)
    requires AllLinked(env, s.chunks, s.attempts) && HoldersKnow(s) && NewWorkers(Next(env, s, e).attempts)
    ensures HoldersKnow(Next(env, s, e))
  {
    var s' := Next(env, s, e);
    forall i: nat | Holds(s', i) && !P.Failing(s'.attempts[i].run)
      ensures s'.chunks[s'.attempts[i].chunk].cursor == s'.attempts[i].run.committedCursor
    {
      HolderStillKnows(env, s, e, i);
    }
  }

  predicate NotBefore(a: Key, b: Key) {
    a == b || Less(a, b)
  }

  lemma NotBeforeChains(a: Key, b: Key, c: Key)
    requires NotBefore(a, b) && NotBefore(b, c)
    ensures NotBefore(a, c)
  {
    if Less(a, b) && Less(b, c) {
      LessTransitive(a, b, c);
    }
  }

  /** The batch in the writer's hand lies behind the committed cursor. */
  lemma CommitAdvances(env: P.Env, t: Target, r: P.Run)
    requires P.WellFormed(env) && RunInv(env, t, r) && r.writer.Committing?
    ensures Less(r.committedCursor, r.writer.batch.cursor)
  {
    var b, p, todo := r.writer.batch, P.Committed(r), P.Todo(env, r);
    BatchInTable(env, r);
    HeadIsCut(env, r);
    var q := p + |b.rows|;
    BehindIsAdmitted(env, r.bounds, r.startCursor, p, q - 1);
    assert todo[q - 1] == b.rows[|b.rows| - 1];
  }

  lemma HeadIsCut(env: P.Env, r: P.Run)
    requires P.Inv(env, r) && r.writer.Committing?
    ensures P.Cut(r.writer.batch) && r.committedCursor == P.CursorAt(P.Todo(env, r), r.startCursor, P.Committed(r))
  {
    P.PipeHead(r);
    assert P.Pipe(r)[0] == r.writer.batch;
  }

  lemma StepForward(env: P.Env, t0: Target, s: State, e: Event, c: nat)
    requires P.WellFormed(env) && Inv(env, t0, s) && HoldersKnow(s) && c < |s.chunks|
    ensures c < |Next(env, s, e).chunks| && NotBefore(s.chunks[c].cursor, Next(env, s, e).chunks[c].cursor)
  {
    ChunkTransitions(env, s, e, c);
    if Committed(s, e, c, s.chunks[c], Next(env, s, e).chunks[c]) {
      CommitAdvances(env, s.target, s.attempts[e.attempt].run);
    }
  }

  lemma {:induction false} CursorsStayForward(env: P.Env, t0: Target, s: State, events: seq<Event>, c: nat)
    requires P.WellFormed(env) && Consistent(env) && Inv(env, t0, s) && HoldersKnow(s) && c < |s.chunks|
    requires NewWorkers(Exec(env, s, events).attempts)
    ensures var s' := Exec(env, s, events);
            c < |s'.chunks| && NotBefore(s.chunks[c].cursor, s'.chunks[c].cursor) && HoldersKnow(s')
    decreases |events|
  {
    if events != [] {
      var s1 := Next(env, s, events[0]);
      AttemptsKeepGrowing(env, s1, events[1..]);
      FewerAreNew(s1.attempts, Exec(env, s1, events[1..]).attempts);
      ChunkTransitions(env, s, events[0], c);
      StepForward(env, t0, s, events[0], c);
      NextKeepsHolders(env, s, events[0]);
      NextKeeps(env, t0, s, events[0]);
      CursorsStayForward(env, t0, s1, events[1..], c);
      NotBeforeChains(s.chunks[c].cursor, s1.chunks[c].cursor, Exec(env, s, events).chunks[c].cursor);
    }
  }

  /** While no worker claims a chunk twice, no durable cursor ever moves back, whatever
      attempts crash, are lost or go on after their lease has expired. */
  lemma CursorsNeverMoveBack(env: P.Env, plan: seq<Partition.Piece>, t0: Target, past: seq<Event>, more: seq<Event>, c: nat)
    requires P.WellFormed(env) && Consistent(env) && Plans(env, plan)
    requires var s := Exec(env, Initial(plan, t0), past); c < |s.chunks| && NewWorkers(Exec(env, s, more).attempts)
    ensures var s := Exec(env, Initial(plan, t0), past); var s' := Exec(env, s, more);
            && c < |s'.chunks|
            && (s'.chunks[c].cursor == s.chunks[c].cursor || Less(s.chunks[c].cursor, s'.chunks[c].cursor))
  {
    var start := Initial(plan, t0);
    var s := Exec(env, start, past);
    InitialInv(env, plan, t0);
    ExecKeeps(env, t0, start, past);
    AttemptsKeepGrowing(env, s, more);
    FewerAreNew(s.attempts, Exec(env, s, more).attempts);
    ReachedHoldersKnow(env, t0, start, past);
    CursorsStayForward(env, t0, s, more, c);
  }

  lemma {:induction false} ReachedHoldersKnow(env: P.Env, t0: Target, s: State, events: seq<Event>)
    requires P.WellFormed(env) && Consistent(env) && Inv(env, t0, s) && HoldersKnow(s)
    requires NewWorkers(Exec(env, s, events).attempts)
    ensures HoldersKnow(Exec(env, s, events))
    decreases |events|
  {
    if events != [] {
      var s1 := Next(env, s, events[0]);
      AttemptsKeepGrowing(env, s1, events[1..]);
      FewerAreNew(s1.attempts, Exec(env, s1, events[1..]).attempts);
      NextKeepsHolders(env, s, events[0]);
      NextKeeps(env, t0, s, events[0]);
      ReachedHoldersKnow(env, t0, s1, events[1..]);
    }
  }

  // ----- why claims must be by new workers

  /** The first batch is read, handed over and written, and its checkpoint is under way. */
  const FIRST_BATCH: seq<P.Event> := [P.Load, P.ReadOk, P.Send] + ([P.Take] + [P.WriteOk])

  lemma FirstBatchRead(env: P.Env, r: P.Run)
    requires P.WellFormed(env) && |P.Todo(env, r)| > env.cfg.initial
    requires r == P.Start(env, r.bounds, r.startCursor, r.startRows)
    ensures var todo := P.Todo(env, r);
            var b := P.Batch(todo[..env.cfg.initial], todo[env.cfg.initial - 1].key, env.cfg.initial);
            P.Exec(env, r, [P.Load, P.ReadOk, P.Send])
            == r.(readCursor := b.cursor, channel := [P.Data(b)], reader := P.Idle)
  {
    P.ExecThree(env, r, P.Load, P.ReadOk, P.Send);
  }

  lemma FirstBatchWritten(env: P.Env, r: P.Run)
    requires P.WellFormed(env) && P.AllTranslate(env) && |P.Todo(env, r)| > env.cfg.initial
    requires r == P.Start(env, r.bounds, r.startCursor, r.startRows)
    ensures P.Exec(env, r, FIRST_BATCH).writer.Committing?
            && P.Exec(env, r, FIRST_BATCH).writer.batch.cursor == P.Todo(env, r)[env.cfg.initial - 1].key
            && P.Exec(env, r, FIRST_BATCH).committedCursor == r.committedCursor
  {
    FirstBatchRead(env, r);
    var sent := P.Exec(env, r, [P.Load, P.ReadOk, P.Send]);
    P.PageTranslates(env, r.bounds, r.startCursor, env.cfg.initial);
    P.ExecConcat(env, r, [P.Load, P.ReadOk, P.Send], [P.Take] + [P.WriteOk]);
    P.ExecConcat(env, sent, [P.Take], [P.WriteOk]);
    P.ExecOne(env, sent, P.Take);
    P.ExecOne(env, P.Step(env, sent, P.Take), P.WriteOk);
  }

  lemma CompletedCursor(env: P.Env, r: P.Run)
    requires P.Inv(env, r) && P.Todo(env, r) != [] && !r.cancelled && r.writer == P.Returned(P.Finished(false))
    ensures r.committedCursor == P.Todo(env, r)[|P.Todo(env, r)| - 1].key
  {
  }

  /** Worker w has claimed the chunk with a new attempt, and nothing else was claimed. */
  ghost predicate Taken(s: State, s': State, c: nat, w: nat) {
    && c < |s.chunks| == |s'.chunks| && |s'.attempts| == |s.attempts| + 1
    && Finishing.Working(s', |s.attempts|) && Finishing.Knows(s', |s.attempts|)
    && s'.attempts[|s.attempts|].chunk == c && s'.attempts[|s.attempts|].worker == w
    && s'.chunks[c].bounds == s.chunks[c].bounds
    && forall j | 0 <= j < |s.attempts| :: s'.attempts[j] == s.attempts[j]
  }

  lemma ClaimTakes(env: P.Env, s: State, c: nat, w: nat)
    requires c < |s.chunks| && s.chunks[c].status == Pending
    ensures var s' := Next(env, s, Claim(c, w));
            && Taken(s, s', c, w)
            && s'.attempts[|s.attempts|].run == P.Start(env, s.chunks[c].bounds, s.chunks[c].cursor, s.chunks[c].rowsRead)
  {
  }

  lemma WorkersStay(env: P.Env, s: State, events: seq<Event>, i: nat)
    requires i < |s.attempts|
    ensures i < |Exec(env, s, events).attempts| && Exec(env, s, events).attempts[i].worker == s.attempts[i].worker
  {
    AttemptsKeepGrowing(env, s, events);
  }

  lemma StillTaken(s: State, s1: State, s2: State, c: nat, w: nat)
    requires Taken(s, s1, c, w) && Finishing.Working(s2, |s.attempts|) && Finishing.Knows(s2, |s.attempts|)
    requires s2.attempts[|s.attempts|].chunk == c && s2.attempts[|s.attempts|].worker == w
    requires Finishing.OtherAttemptsSame(s1, s2, |s.attempts|) && Finishing.OthersSame(s1, s2, c)
    requires s2.chunks[c].bounds == s1.chunks[c].bounds
    ensures Taken(s, s2, c, w)
  {
  }

  /** A worker takes a pending chunk and runs the given steps over it. */
  lemma TakeAndRun(env: P.Env, s: State, c: nat, w: nat, steps: seq<P.Event>) returns (events: seq<Event>)
    requires c < |s.chunks| && s.chunks[c].status == Pending
    ensures var s' := Exec(env, s, events);
            && Taken(s, s', c, w)
            && s'.attempts[|s.attempts|].run
               == P.Exec(env, P.Start(env, s.chunks[c].bounds, s.chunks[c].cursor, s.chunks[c].rowsRead), steps)
  {
    var i, claimed := |s.attempts|, Next(env, s, Claim(c, w));
    ClaimTakes(env, s, c, w);
    var work := Finishing.LiftRun(env, claimed, i, steps);
    WorkersStay(env, claimed, work, i);
    StillTaken(s, claimed, Exec(env, claimed, work), c, w);
    events := [Claim(c, w)] + work;
    Finishing.ExecConcat(env, s, [Claim(c, w)], work);
    Finishing.ExecOne(env, s, Claim(c, w));
  }

  lemma CompletedAtLastRow(env: P.Env, r: P.Run, steps: seq<P.Event>)
    requires P.WellFormed(env) && P.Inv(env, r) && P.Todo(env, r) != [] && P.Completes(env, r, steps)
    ensures P.Exec(env, r, steps).committedCursor == P.Todo(env, r)[|P.Todo(env, r)| - 1].key
  {
    P.ExecKeeps(env, r, steps);
    P.ExecKeepsJob(env, r, steps);
    CompletedCursor(env, P.Exec(env, r, steps));
  }

  lemma EndsAtLastRow(env: P.Env, r: P.Run) returns (steps: seq<P.Event>)
    requires P.WellFormed(env) && P.AllTranslate(env) && P.Todo(env, r) != []
    requires r == P.Start(env, r.bounds, r.startCursor, r.startRows)
    ensures P.Exec(env, r, steps).committedCursor == P.Todo(env, r)[|P.Todo(env, r)| - 1].key
  {
    P.StartKeeps(env, r.bounds, r.startCursor, r.startRows);
    P.CanComplete(env, r);
    steps :| P.Completes(env, r, steps);
    CompletedAtLastRow(env, r, steps);
  }

  lemma FirstBeforeLast(env: P.Env, b: Bounds, cursor: Key)
    requires P.WellFormed(env) && |Select(env.table, b, cursor)| > env.cfg.initial
    ensures var todo := Select(env.table, b, cursor); Less(todo[env.cfg.initial - 1].key, todo[|todo| - 1].key)
  {
    SelectSorted(env.table, b, cursor);
  }

  const NO_CONTROL := P.Ack(P.Control(P.Ordinary, 0, 0, false), 0, 0)

  /** The chunk was taken twice by one worker, the second time after its lease expired. */
  ghost predicate TakenTwice(env: P.Env, s: State, s1: State, c: nat, w: nat) {
    exists mid: State :: Taken(s, mid, c, w) && Taken(Next(env, mid, Expire(c)), s1, c, w)
  }

  lemma ExpiresWhenTaken(env: P.Env, s: State, mid: State, c: nat, w: nat)
    requires Taken(s, mid, c, w)
    ensures var e := Next(env, mid, Expire(c));
            && e.attempts == mid.attempts && |e.chunks| == |mid.chunks|
            && e.chunks[c] == mid.chunks[c].(status := Pending)
  {
  }

  predicate GoesBack(s: State, s': State, c: nat) {
    c < |s.chunks| && c < |s'.chunks| && Less(s'.chunks[c].cursor, s.chunks[c].cursor)
  }

  lemma FirstAttemptCommits(env: P.Env, s: State, mid: State, s1: State, c: nat, w: nat)
    requires Twice(env, s, mid, s1, c, w)
    ensures TakenTwice(env, s, s1, c, w)
    ensures GoesBack(s1, Next(env, s1, CommitAcked(|s.attempts|, NO_CONTROL)), c)
  {
    ExpiresWhenTaken(env, s, mid, c, w);
    assert s1.attempts[|s.attempts|] == mid.attempts[|s.attempts|];
    HolderIsObeyed(env, s1, |s.attempts|, NO_CONTROL, false);
  }

  lemma TakeFirst(env: P.Env, s: State, c: nat, w: nat) returns (events: seq<Event>)
    requires P.WellFormed(env) && P.AllTranslate(env) && c < |s.chunks| && s.chunks[c].status == Pending
    requires |Select(env.table, s.chunks[c].bounds, s.chunks[c].cursor)| > env.cfg.initial
    ensures var s', i := Exec(env, s, events), |s.attempts|;
            && Taken(s, s', c, w) && s'.chunks[c].cursor == s.chunks[c].cursor
            && s'.attempts[i].run.writer.Committing?
            && s'.attempts[i].run.writer.batch.cursor
               == Select(env.table, s.chunks[c].bounds, s.chunks[c].cursor)[env.cfg.initial - 1].key
  {
    FirstBatchWritten(env, P.Start(env, s.chunks[c].bounds, s.chunks[c].cursor, s.chunks[c].rowsRead));
    events := TakeAndRun(env, s, c, w, FIRST_BATCH);
  }

  lemma TakeAll(env: P.Env, s: State, c: nat, w: nat) returns (events: seq<Event>)
    requires P.WellFormed(env) && P.AllTranslate(env) && c < |s.chunks| && s.chunks[c].status == Pending
    requires Select(env.table, s.chunks[c].bounds, s.chunks[c].cursor) != []
    ensures var s', todo := Exec(env, s, events), Select(env.table, s.chunks[c].bounds, s.chunks[c].cursor);
            Taken(s, s', c, w) && s'.chunks[c].cursor == todo[|todo| - 1].key
  {
    var steps := EndsAtLastRow(env, P.Start(env, s.chunks[c].bounds, s.chunks[c].cursor, s.chunks[c].rowsRead));
    events := TakeAndRun(env, s, c, w, steps);
  }

  /** The lease expires and the same worker takes the chunk again. */
  lemma TakeAgain(env: P.Env, s: State, mid: State, c: nat, w: nat) returns (events: seq<Event>)
    requires P.WellFormed(env) && P.AllTranslate(env) && Taken(s, mid, c, w) && mid.chunks[c].cursor == s.chunks[c].cursor
    requires Select(env.table, s.chunks[c].bounds, s.chunks[c].cursor) != []
    ensures var s1, todo := Exec(env, mid, events), Select(env.table, s.chunks[c].bounds, s.chunks[c].cursor);
            Taken(Next(env, mid, Expire(c)), s1, c, w) && s1.chunks[c].cursor == todo[|todo| - 1].key
  {
    ExpiresWhenTaken(env, s, mid, c, w);
    var work := TakeAll(env, Next(env, mid, Expire(c)), c, w);
    events := [Expire(c)] + work;
    Finishing.ExecConcat(env, mid, [Expire(c)], work);
    Finishing.ExecOne(env, mid, Expire(c));
  }

  lemma BothTaken(env: P.Env, s: State, mid: State, s1: State, c: nat, w: nat)
    requires P.WellFormed(env) && Taken(s, mid, c, w) && Taken(Next(env, mid, Expire(c)), s1, c, w)
    requires |Select(env.table, s.chunks[c].bounds, s.chunks[c].cursor)| > env.cfg.initial
    requires var todo := Select(env.table, s.chunks[c].bounds, s.chunks[c].cursor);
             && mid.attempts[|s.attempts|].run.writer.Committing?
             && mid.attempts[|s.attempts|].run.writer.batch.cursor == todo[env.cfg.initial - 1].key
             && s1.chunks[c].cursor == todo[|todo| - 1].key
    ensures Twice(env, s, mid, s1, c, w)
  {
    FirstBeforeLast(env, s.chunks[c].bounds, s.chunks[c].cursor);
  }

  lemma TakeTwice(env: P.Env, s: State, c: nat, w: nat) returns (first: seq<Event>, again: seq<Event>)
    requires P.WellFormed(env) && P.AllTranslate(env) && c < |s.chunks| && s.chunks[c].status == Pending
    requires |Select(env.table, s.chunks[c].bounds, s.chunks[c].cursor)| > env.cfg.initial
    ensures Twice(env, s, Exec(env, s, first), Exec(env, Exec(env, s, first), again), c, w)
  {
    first := TakeFirst(env, s, c, w);
    var mid := Exec(env, s, first);
    again := TakeAgain(env, s, mid, c, w);
    BothTaken(env, s, mid, Exec(env, mid, again), c, w);
  }

  ghost predicate Twice(env: P.Env, s: State, mid: State, s1: State, c: nat, w: nat) {
    && Taken(s, mid, c, w) && Taken(Next(env, mid, Expire(c)), s1, c, w)
    && mid.attempts[|s.attempts|].run.writer.Committing?
    && Less(mid.attempts[|s.attempts|].run.writer.batch.cursor, s1.chunks[c].cursor)
  }

  /** The condition on workers is needed: a worker that claims a chunk again can bring its
      durable cursor back with the checkpoint of its first attempt, whenever the chunk has
      more rows than one batch. */
  lemma ReclaimedCursorGoesBack(env: P.Env, s: State, c: nat, w: nat) returns (more: seq<Event>)
    requires P.WellFormed(env) && P.AllTranslate(env) && c < |s.chunks| && s.chunks[c].status == Pending
    requires |Select(env.table, s.chunks[c].bounds, s.chunks[c].cursor)| > env.cfg.initial
    ensures TakenTwice(env, s, Exec(env, s, more), c, w)
    ensures GoesBack(Exec(env, s, more), Next(env, Exec(env, s, more), CommitAcked(|s.attempts|, NO_CONTROL)), c)
  {
    var first, again := TakeTwice(env, s, c, w);
    more := first + again;
    Finishing.ExecConcat(env, s, first, again);
    FirstAttemptCommits(env, s, Exec(env, s, first), Exec(env, s, more), c, w);
  }

  // ----- reports complete

  /** A run that was told to stop has committed something. */
  ghost predicate StopsBehindCommits(s: State) {
    forall i | 0 <= i < |s.attempts| :: CursorIfStopped(s.attempts[i].run)
  }

  predicate CursorIfStopped(r: P.Run) {
    r.writer == P.Returned(P.Finished(true)) ==> r.committedCursor != []
  }

  lemma LocalKeepsStop(env: P.Env, r: P.Run, e: P.Event)
    requires CursorIfStopped(r) && !e.CommitAcks?
    ensures CursorIfStopped(P.Step(env, r, e))
  {
  }

  /** Only an acknowledged commit stops a run. */
  lemma StopAfter(env: P.Env, s: State, e: Event, i: nat)
    requires i < |s.attempts| && CursorIfStopped(s.attempts[i].run)
    ensures var was, now := s.attempts[i].run, Next(env, s, e).attempts[i].run;
            || CursorIfStopped(now)
            || (was.writer.Committing? && now.committedCursor == was.writer.batch.cursor)
  {
    match e
    case Local(j, step) =>
      if Live(s, j) && !step.WriteOk? && !step.CommitAcks? {
        if j == i {
          LocalKeepsStop(env, s.attempts[j].run, step);
        }
      }
    case Write(j) =>
      if Live(s, j) && j == i {
        LocalKeepsStop(env, s.attempts[j].run, P.WriteOk);
      }
    case CommitLost(j) =>
      if Live(s, j) && j == i {
        LocalKeepsStop(env, s.attempts[j].run, P.CommitFails);
      }
    case CommitAcked(j, ack) =>
      if MayCommit(s, j) {
        AckedShape(env, s, j, ack);
        if j == i {
          AckStops(env, s.attempts[j].run, ack);
        }
      }
    case _ =>
  }

  lemma AckStops(env: P.Env, r: P.Run, ack: P.Ack)
    requires r.writer.Committing?
    ensures P.Step(env, r, P.CommitAcks(ack)).committedCursor == r.writer.batch.cursor
  {
  }

  lemma BatchHasCursor(env: P.Env, t: Target, r: P.Run)
    requires P.WellFormed(env) && RunInv(env, t, r) && r.writer.Committing?
    ensures r.writer.batch.cursor != []
  {
    CommitAdvances(env, t, r);
  }

  lemma StopStays(env: P.Env, t0: Target, s: State, e: Event, i: nat)
    requires P.WellFormed(env) && Inv(env, t0, s) && i < |s.attempts| && CursorIfStopped(s.attempts[i].run)
    ensures i < |Next(env, s, e).attempts| && CursorIfStopped(Next(env, s, e).attempts[i].run)
  {
    AttemptsGrow(env, s, e);
    StopAfter(env, s, e, i);
    if s.attempts[i].run.writer.Committing? {
      assert RunInv(env, s.target, s.attempts[i].run);
      BatchHasCursor(env, s.target, s.attempts[i].run);
    }
  }

  lemma NewAttemptsWait(env: P.Env, s: State, e: Event, i: nat)
    requires |s.attempts| <= i < |Next(env, s, e).attempts|
    ensures Next(env, s, e).attempts[i].run.writer == P.Waiting
  {
  }

  lemma NextKeepsStops(env: P.Env, t0: Target, s: State, e: Event)
    requires P.WellFormed(env) && Inv(env, t0, s) && StopsBehindCommits(s)
    ensures StopsBehindCommits(Next(env, s, e))
  {
    var s' := Next(env, s, e);
    forall i | 0 <= i < |s'.attempts| ensures CursorIfStopped(s'.attempts[i].run) {
      if i < |s.attempts| {
        StopStays(env, t0, s, e, i);
      } else {
        NewAttemptsWait(env, s, e, i);
      }
    }
  }

  lemma {:induction false} ExecKeepsStops(env: P.Env, t0: Target, s: State, events: seq<Event>)
    requires P.WellFormed(env) && Consistent(env) && Inv(env, t0, s) && StopsBehindCommits(s)
    ensures StopsBehindCommits(Exec(env, s, events))
    decreases |events|
  {
    if events != [] {
      NextKeeps(env, t0, s, events[0]);
      NextKeepsStops(env, t0, s, events[0]);
      ExecKeepsStops(env, t0, Next(env, s, events[0]), events[1..]);
    }
  }

  lemma ReportCompletes(env: P.Env, t0: Target, s: State, i: nat, split: Split)
    requires P.WellFormed(env) && Inv(env, t0, s) && StopsBehindCommits(s) && Reporting(s, i)
    ensures var c := s.attempts[i].chunk;
            c < |Next(env, s, Report(i, split)).chunks| && Next(env, s, Report(i, split)).chunks[c].status == Success
  {
    var a := s.attempts[i];
    ReportShape(env, s, i, split);
    if a.run.writer.outcome.stopped {
      StoppedCursor(env, t0, s, i);
      RestOrEnd(s.chunks[a.chunk].bounds, a.run.committedCursor, split);
    }
  }

  lemma StoppedCursor(env: P.Env, t0: Target, s: State, i: nat)
    requires P.WellFormed(env) && Inv(env, t0, s) && StopsBehindCommits(s) && Reporting(s, i)
    requires s.attempts[i].run.writer.outcome.stopped
    ensures var a := s.attempts[i];
            a.run.committedCursor != [] && Inside(s.chunks[a.chunk].bounds, a.run.committedCursor)
  {
    var a := s.attempts[i];
    assert RunInv(env, s.target, a.run) && Linked(env, s.chunks, a) && CursorIfStopped(a.run);
    FinishedPosition(env, s.target, a.run);
  }

  /** In every reachable state the report of a holder whose run returned without an error
      completes its chunk, whether the run finished or yielded. */
  lemma ReportsComplete(env: P.Env, plan: seq<Partition.Piece>, t0: Target, past: seq<Event>, i: nat, split: Split)
    requires P.WellFormed(env) && Consistent(env) && Plans(env, plan)
    requires var s := Exec(env, Initial(plan, t0), past);
             Holds(s, i) && !s.attempts[i].run.cancelled && s.attempts[i].run.writer.Returned?
             && s.attempts[i].run.writer.outcome.Finished?
    ensures var s := Exec(env, Initial(plan, t0), past);
            var c := s.attempts[i].chunk;
            c < |Next(env, s, Report(i, split)).chunks| && Next(env, s, Report(i, split)).chunks[c].status == Success
  {
    var s := Exec(env, Initial(plan, t0), past);
    InitialInv(env, plan, t0);
    ExecKeeps(env, t0, Initial(plan, t0), past);
    ExecKeepsStops(env, t0, Initial(plan, t0), past);
    ReportCompletes(env, t0, s, i, split);
  }

  lemma RestOrEnd(b: Bounds, cursor: Key, split: Split)
    requires cursor != [] && Inside(b, cursor)
    ensures Remainders(b, cursor, split) != [] || AtEnd(b, cursor)
  {
    match b
    case RangeBounds(start, end) =>
      if cursor[0] < end {
        NumericRemaindersBalanced(cursor[0], end, split.pieces);
      }
    case KeysetBounds(lower, upper) =>
  }
}
