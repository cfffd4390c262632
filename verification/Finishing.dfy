/** Any worker can take over: when a migration can still be finished. */
module Finishing {
  import opened Wrappers
  import opened Keys
  import P = Pipeline
  import opened Worker
  import Partition
  import Yield

  // ----- one attempt, run to its end

  /** The attempt is alive and holds its chunk. */
  predicate Working(s: State, i: nat) {
    Live(s, i) && Accepts(s, s.attempts[i])
  }

  ghost predicate OthersSame(s: State, s': State, c: nat) {
    && |s'.chunks| == |s.chunks|
    && forall j | 0 <= j < |s.chunks| && j != c :: s'.chunks[j] == s.chunks[j]
  }

  ghost predicate OtherAttemptsSame(s: State, s': State, i: nat) {
    && |s'.attempts| == |s.attempts|
    && forall j | 0 <= j < |s.attempts| && j != i :: s'.attempts[j] == s.attempts[j]
  }

  /** The attempt's committed cursor is the durable one. */
  predicate Knows(s: State, i: nat) {
    && i < |s.attempts| && s.attempts[i].chunk < |s.chunks|
    && s.chunks[s.attempts[i].chunk].cursor == s.attempts[i].run.committedCursor
  }

  /** The step of a pipeline as an event of the migration. */
  function Lifted(i: nat, e: P.Event): Event {
    match e
    case WriteOk => Write(i)
    case CommitAcks(ack) => CommitAcked(i, ack)
    case _ => Local(i, e)
  }

  lemma LiftStep(env: P.Env, s: State, i: nat, e: P.Event)
    requires Working(s, i)
    ensures var s' := Next(env, s, Lifted(i, e));
            && Working(s', i) && OthersSame(s, s', s.attempts[i].chunk)
            && s'.attempts[i].chunk == s.attempts[i].chunk
            && s'.attempts[i].run == P.Step(env, s.attempts[i].run, e)
            && OtherAttemptsSame(s, s', i) && (Knows(s, i) ==> Knows(s', i))
            && s'.chunks[s.attempts[i].chunk].bounds == s.chunks[s.attempts[i].chunk].bounds
  {
    LocalKeepsCommitted(env, s.attempts[i].run, e);
  }

  lemma LocalKeepsCommitted(env: P.Env, r: P.Run, e: P.Event)
    ensures P.Step(env, r, e).committedCursor
            == if e.CommitAcks? && r.writer.Committing? then r.writer.batch.cursor else r.committedCursor
  {
  }

  lemma {:induction false} LiftRun(env: P.Env, s: State, i: nat, steps: seq<P.Event>) returns (events: seq<Event>)
    requires Working(s, i)
    ensures var s' := Exec(env, s, events);
            && Working(s', i) && OthersSame(s, s', s.attempts[i].chunk)
            && s'.attempts[i].chunk == s.attempts[i].chunk
            && s'.attempts[i].run == P.Exec(env, s.attempts[i].run, steps)
            && OtherAttemptsSame(s, s', i) && (Knows(s, i) ==> Knows(s', i))
            && s'.chunks[s.attempts[i].chunk].bounds == s.chunks[s.attempts[i].chunk].bounds
    decreases |steps|
  {
    if steps == [] {
      events := [];
    } else {
      LiftStep(env, s, i, steps[0]);
      var rest := LiftRun(env, Next(env, s, Lifted(i, steps[0])), i, steps[1..]);
      events := [Lifted(i, steps[0])] + rest;
      assert events[1..] == rest;
    }
  }

  lemma {:induction false} ExecConcat(env: P.Env, s: State, a: seq<Event>, b: seq<Event>)
    ensures Exec(env, s, a + b) == Exec(env, Exec(env, s, a), b)
    decreases |a|
  {
    if a == [] {
      assert a + b == b;
    } else {
      assert (a + b)[1..] == a[1..] + b;
      ExecConcat(env, Next(env, s, a[0]), a[1..], b);
    }
  }

  lemma ExecOne(env: P.Env, s: State, e: Event)
    ensures Exec(env, s, [e]) == Next(env, s, e)
  {
    assert [e][1..] == [];
  }

  const NO_SPLIT := Yield.Split(1, [])

  /** An attempt that holds its chunk and is in good health can complete it. */
  lemma CompleteAttempt(env: P.Env, s: State, i: nat) returns (events: seq<Event>)
    requires P.WellFormed(env) && P.AllTranslate(env) && Working(s, i)
    requires P.Inv(env, s.attempts[i].run) && P.Healthy(env, s.attempts[i].run)
    ensures var s' := Exec(env, s, events);
            OthersSame(s, s', s.attempts[i].chunk) && s'.chunks[s.attempts[i].chunk].status == Success
  {
    P.CanComplete(env, s.attempts[i].run);
    var steps :| P.Completes(env, s.attempts[i].run, steps);
    var work := LiftRun(env, s, i, steps);
    var done := Exec(env, s, work);
    events := work + [Report(i, NO_SPLIT)];
    ExecConcat(env, s, work, [Report(i, NO_SPLIT)]);
    ExecOne(env, done, Report(i, NO_SPLIT));
  }

  /** A pending chunk can be claimed afresh and completed. */
  lemma CompletePending(env: P.Env, t0: Target, s: State, c: nat) returns (events: seq<Event>)
    requires P.WellFormed(env) && P.AllTranslate(env) && Inv(env, t0, s) && c < |s.chunks| && s.chunks[c].status == Pending
    ensures var s' := Exec(env, s, events); OthersSame(s, s', c) && s'.chunks[c].status == Success
  {
    var claimed := Next(env, s, Claim(c, 0));
    assert ChunkInv(env, s.target, s.chunks[c]);
    StartRunKeeps(env, s.target, s.chunks[c]);
    var work := CompleteAttempt(env, claimed, |s.attempts|);
    events := [Claim(c, 0)] + work;
    ExecConcat(env, s, [Claim(c, 0)], work);
    ExecOne(env, s, Claim(c, 0));
  }

  /** A chunk that is not given up can be claimed afresh and completed, whoever held it. */
  lemma CompleteChunk(env: P.Env, t0: Target, s: State, c: nat) returns (events: seq<Event>)
    requires P.WellFormed(env) && P.AllTranslate(env) && Inv(env, t0, s)
    requires c < |s.chunks| && s.chunks[c].status != GaveUp
    ensures var s' := Exec(env, s, events); OthersSame(s, s', c) && s'.chunks[c].status == Success
  {
    if s.chunks[c].status == Success {
      events := [];
    } else if s.chunks[c].status == Pending {
      events := CompletePending(env, t0, s, c);
    } else {
      ExpireKeeps(env, t0, s, c);
      ExecOne(env, s, Expire(c));
      var work := CompletePending(env, t0, Next(env, s, Expire(c)), c);
      events := [Expire(c)] + work;
      ExecConcat(env, s, [Expire(c)], work);
    }
  }

  ghost predicate NoneGivenUp(chunks: seq<Chunk>) {
    forall c | 0 <= c < |chunks| :: chunks[c].status != GaveUp
  }

  lemma {:induction false} CompleteFrom(env: P.Env, t0: Target, s: State, k: nat) returns (events: seq<Event>)
    requires P.WellFormed(env) && P.AllTranslate(env) && Consistent(env) && Inv(env, t0, s)
    requires k <= |s.chunks| && NoneGivenUp(s.chunks) && AllComplete(s.chunks[..k])
    ensures Finishes(env, s, events)
    decreases |s.chunks| - k
  {
    if k == |s.chunks| {
      events := [];
      assert s.chunks[..k] == s.chunks;
    } else {
      var first := CompleteChunk(env, t0, s, k);
      var s' := Exec(env, s, first);
      ExecKeeps(env, t0, s, first);
      var front := s'.chunks[..k + 1];
      forall c | 0 <= c < |front| ensures front[c].status == Success {
        assert c < k ==> s.chunks[..k][c].status == Success;
      }
      var rest := CompleteFrom(env, t0, s', k + 1);
      events := first + rest;
      ExecConcat(env, s, first, rest);
    }
  }

  ghost predicate Finishes(env: P.Env, s: State, events: seq<Event>) {
    AllComplete(Exec(env, s, events).chunks)
  }

  // ----- what cannot be finished

  lemma GivenUpStays(env: P.Env, s: State, e: Event, c: nat)
    requires c < |s.chunks| && s.chunks[c].status == GaveUp
    ensures var s' := Next(env, s, e); c < |s'.chunks| && s'.chunks[c].status == GaveUp
  {
  }

  lemma {:induction false} NeverCompleted(env: P.Env, s: State, events: seq<Event>, c: nat)
    requires c < |s.chunks| && s.chunks[c].status == GaveUp
    ensures !Finishes(env, s, events)
    decreases |events|
  {
    if events != [] {
      GivenUpStays(env, s, events[0], c);
      NeverCompleted(env, Next(env, s, events[0]), events[1..], c);
    }
  }

  /** Whatever has happened to a migration so far, crashes and stale attempts included: it can
      still be finished if and only if every row has an image and no chunk was given up. */
  lemma CanFinishIff(env: P.Env, plan: seq<Partition.Piece>, t0: Target, past: seq<Event>)
    requires P.WellFormed(env) && Consistent(env) && Plans(env, plan)
    ensures var s := Exec(env, Initial(plan, t0), past);
            (exists events :: Finishes(env, s, events)) <==> P.AllTranslate(env) && NoneGivenUp(s.chunks)
  {
    InitialInv(env, plan, t0);
    ExecKeeps(env, t0, Initial(plan, t0), past);
    var s := Exec(env, Initial(plan, t0), past);
    if events :| Finishes(env, s, events) {
      ExecKeeps(env, t0, s, events);
      CompleteTranslates(env, t0, Exec(env, s, events));
      forall c | 0 <= c < |s.chunks| ensures s.chunks[c].status != GaveUp {
        if s.chunks[c].status == GaveUp {
          NeverCompleted(env, s, events, c);
        }
      }
    }
    if P.AllTranslate(env) && NoneGivenUp(s.chunks) {
      var events := CompleteFrom(env, t0, s, 0);
    }
  }
}
