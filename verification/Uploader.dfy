/** One attempt at archiving a bundle, as the program runs it: request by request. Its
    trace is a run of the machine in ReportArchive, so everything proved there about
    interleaved attempts holds of it. */
module Uploaders {
  import opened Wrappers
  import opened Encoding
  import opened ReportArchive

  datatype PutFate = Acknowledged | LostAfterStoring | LostBeforeStoring

  /** How the requests for one object turn out, and when they are made. */
  datatype Fate = Fate(lookAnswered: bool, put: PutFate, putAt: int, againAnswered: bool, lookAt: int, readAnswered: bool)

  datatype Problem =
    | RequestFailed | MissingDigest | DifferentDigest | WrongLockMode | MissingRetention | RetentionInactive
    | LegalHoldOff | DifferentContent | EmptyEvidenceDigest

  datatype Archived = Archived(
    name: Name, sha: int, size: nat, existing: bool, lockMode: LockMode, retention: Retention, legalHold: bool)

  datatype Bundle = Bundle(
    evidenceDigest: string, artifacts: seq<Put>, sums: Bytes, hmacSums: Bytes, signatures: Bytes,
    timestampToken: Bytes, timestampJSON: Bytes, manifest: Bytes, ready: Bytes)

  function Optional(name: Name, content: Bytes): seq<Put> {
    if content == [] then [] else [Put(name, content)]
  }

  function Tail(b: Bundle): seq<Put> {
    [Put("manifest.json", b.manifest), Put(READY, b.ready)]
  }

  function Signed(b: Bundle): seq<Put> {
    [Put("SHA256SUMS", b.sums)]
    + (Optional("HMACSHA256SUMS", b.hmacSums)
       + (Optional("ED25519SIGNATURES", b.signatures)
          + (Optional("manifest.tsr", b.timestampToken)
             + (Optional("timestamp.json", b.timestampJSON) + Tail(b)))))
  }

  /** The order in which a bundle is put. */
  function PlanOf(b: Bundle): seq<Put> {
    b.artifacts + Signed(b)
  }

  /** The order spelled out: the artifacts, the checksums, whatever signatures and timestamps
      there are, the manifest, and READY.json last. */
  lemma BundleOrder(b: Bundle)
    ensures PlanOf(b) == b.artifacts + [Put("SHA256SUMS", b.sums)]
              + (if b.hmacSums == [] then [] else [Put("HMACSHA256SUMS", b.hmacSums)])
              + (if b.signatures == [] then [] else [Put("ED25519SIGNATURES", b.signatures)])
              + (if b.timestampToken == [] then [] else [Put("manifest.tsr", b.timestampToken)])
              + (if b.timestampJSON == [] then [] else [Put("timestamp.json", b.timestampJSON)])
              + [Put("manifest.json", b.manifest), Put("READY.json", b.ready)]
  {
  }

  lemma {:induction false} ExecAppend(env: Env, s: State, trace: seq<Event>, e: Event)
    ensures Exec(env, s, trace + [e]) == Next(env, Exec(env, s, trace), e)
  {
    ExecConcat(env, s, trace, [e]);
    ExecOne(env, Exec(env, s, trace), e);
  }

  class Uploader {
    const env: Env
    const fates: seq<Fate>
    ghost const plan: seq<Put>
    ghost const before: Store

    /** The bucket, as this attempt sees and changes it. */
    var store: Store
    var archived: seq<Archived>
    var problem: Option<Problem>
    ghost var issued: set<nat>
    ghost var trace: seq<Event>

    ghost function Start(): State
      reads this
    {
      State(before, [Attempt(plan, 0, Looking, {})])
    }

    /** The attempt is where its trace leads, waiting in this phase. */
    ghost predicate At(phase: Phase)
      reads this
    {
      && |archived| <= |plan| && Drawn(trace, {plan})
      && Exec(env, Start(), trace) == State(store, [Attempt(plan, |archived|, phase, issued)])
    }

    ghost function Resting(): Phase
      reads this
    {
      if problem.Some? then Failed else if |archived| == |plan| then Committed else Looking
    }

    ghost predicate Valid()
      reads this
    {
      |fates| >= |plan| && At(Resting())
    }

    constructor (env: Env, store: Store, fates: seq<Fate>, ghost plan: seq<Put>)
      requires |fates| >= |plan| > 0
      ensures Valid() && problem == None && archived == []
      ensures this.env == env && this.fates == fates && this.plan == plan && before == store && this.store == store
    {
      this.env, this.fates, this.plan, before := env, fates, plan, store;
      this.store, archived, problem := store, [], None;
      issued, trace := {}, [];
    }

    ghost method Happens(e: Event)
      modifies this`trace
      ensures trace == old(trace) + [e] && Exec(env, Start(), trace) == Next(env, Exec(env, Start(), old(trace)), e)
    {
      ExecAppend(env, Start(), trace, e);
      trace := trace + [e];
    }

    /** The request under way is not answered. */
    method GiveUp(phase: Phase)
      requires At(phase) && phase !in {Failed, Committed} && |archived| < |plan| <= |fates|
      modifies this`problem, this`trace
      ensures Valid() && problem == Some(RequestFailed)
    {
      Happens(RequestFails(0));
      problem := Some(RequestFailed);
    }

    /** Checks the object found under the name and reads it back. */
    method Verify(p: Put, f: Fate, phase: Phase)
      requires At(phase) && (phase == Looking || phase == Relooking) && problem.None?
      requires |archived| < |plan| <= |fates| && plan[|archived|] == p && p.name in store
      modifies this`problem, this`trace, this`archived
      ensures Valid() && archived == if problem.None? then old(archived) + [Record(p, store[p.name], phase == Looking)] else old(archived)
      ensures problem.None? <==>
                && Acceptable(env, p, store[p.name], f.lookAt) && f.readAnswered
                && env.sha(Fetched(store[p.name])) == env.sha(p.content)
      ensures var o, mode, hold := store[p.name], env.cfg.lockMode, env.cfg.legalHold;
              problem == if o.sha.None? then Some(MissingDigest)
                         else if o.sha.value != env.sha(p.content) then Some(DifferentDigest)
                         else if mode != Off && o.lockMode != mode then Some(WrongLockMode)
                         else if mode != Off && o.retention.NoRetention? then Some(MissingRetention)
                         else if mode != Off && !(o.retention.Until? && o.retention.time > f.lookAt) && !(hold && o.legalHold)
                         then Some(RetentionInactive)
                         else if hold && !o.legalHold then Some(LegalHoldOff)
                         else if !f.readAnswered then Some(RequestFailed)
                         else if env.sha(Fetched(o)) != env.sha(p.content) then Some(DifferentContent)
                         else None
    {
      var want, h := env.sha(p.content), store[p.name];
      Happens(Look(0, f.lookAt));
      if h.sha == None {
        problem := Some(MissingDigest);
        return;
      }
      if h.sha.value != want {
        problem := Some(DifferentDigest);
        return;
      }
      if env.cfg.lockMode != Off {
        if h.lockMode != env.cfg.lockMode {
          problem := Some(WrongLockMode);
          return;
        }
        if h.retention == NoRetention {
          problem := Some(MissingRetention);
          return;
        }
        if !h.retention.Until? || h.retention.time <= f.lookAt {
          if !env.cfg.legalHold || !h.legalHold {
            problem := Some(RetentionInactive);
            return;
          }
        }
      }
      if env.cfg.legalHold && !h.legalHold {
        problem := Some(LegalHoldOff);
        return;
      }
      if !f.readAnswered {
        GiveUp(Fetching);
        return;
      }
      Happens(Fetch(0));
      var actual := Fetched(h);
      if env.sha(actual) != want {
        problem := Some(DifferentContent);
        return;
      }
      archived := archived + [Archived(p.name, want, |p.content|, phase == Looking, h.lockMode, h.retention, h.legalHold)];
    }

    function Record(p: Put, o: Object, existing: bool): Archived {
      Archived(p.name, env.sha(p.content), |p.content|, existing, o.lockMode, o.retention, o.legalHold)
    }

    method Upload(p: Put, at: int)
      requires At(Putting) && |archived| < |plan| && plan[|archived|] == p && |archived| in issued
      modifies this`store, this`trace
      ensures At(Putting) && store == old(store)[p.name := Stored(env, p, at)]
    {
      var retention := NoRetention;
      if env.cfg.lockMode != Off {
        retention := Until(at + env.cfg.retentionDays * SECONDS_PER_DAY);
      }
      Happens(Apply(0, |archived|, at));
      store := store[p.name := Object(Some(env.sha(p.content)), p.content, env.cfg.lockMode, retention, env.cfg.legalHold)];
    }

    /** Puts one object unless it is there, and verifies what is there. */
    method PutImmutable(p: Put)
      requires Valid() && problem.None? && |archived| < |plan| && plan[|archived|] == p
      modifies this
      ensures Valid() && (problem.Some? ==> archived == old(archived))
      ensures problem.None? ==> p.name in store && archived == old(archived) + [Record(p, store[p.name], p.name in old(store))]
      ensures problem.None? ==> Describes(env, Record(p, store[p.name], p.name in old(store)), p)
      ensures store == old(store)
              || (p.name !in old(store) && store == old(store)[p.name := Stored(env, p, fates[|old(archived)|].putAt)])
      ensures p.name !in old(store) && Smooth(fates[|old(archived)|], env.cfg) && CollisionFree(env.sha) ==>
                (problem.None? <==> |p.content| <= GET_LIMIT)
    {
      var f := fates[|archived|];
      if !f.lookAnswered {
        GiveUp(Looking);
        return;
      }
      if p.name in store {
        Verify(p, f, Looking);
        return;
      }
      PutAbsent(p, f);
    }

    /** The name is free: the put request is sent. */
    ghost method SendPut(p: Put, now: int)
      requires At(Looking) && |archived| < |plan| && plan[|archived|] == p && p.name !in store
      modifies this`trace, this`issued
      ensures At(Putting) && |archived| in issued
    {
      Happens(Look(0, now));
      Happens(Send(0));
      issued := issued + {|archived|};
    }

    /** Puts an object that was not there and verifies it. */
    method PutAbsent(p: Put, f: Fate)
      requires Valid() && problem.None? && |archived| < |plan| && plan[|archived|] == p && p.name !in store
      modifies this
      ensures Valid() && (problem.Some? ==> archived == old(archived))
      ensures problem.None? ==> p.name in store && archived == old(archived) + [Record(p, store[p.name], false)]
      ensures problem.None? ==> Describes(env, Record(p, store[p.name], false), p)
      ensures store == old(store) || store == old(store)[p.name := Stored(env, p, f.putAt)]
      ensures Smooth(f, env.cfg) && f.lookAnswered && CollisionFree(env.sha) ==> (problem.None? <==> |p.content| <= GET_LIMIT)
    {
      SendPut(p, f.lookAt);
      StoredReadsBack(env, p, f);
      if f.put != LostBeforeStoring {
        Upload(p, f.putAt);
      }
      if f.put != Acknowledged {
        GiveUp(Putting);
        return;
      }
      Happens(PutAcked(0));
      if !f.againAnswered {
        GiveUp(Relooking);
        return;
      }
      Verify(p, f, Relooking);
    }

    /** What is recorded of the objects archived so far. */
    ghost predicate Recorded()
      reads this
      requires |archived| <= |plan|
    {
      forall k | 0 <= k < |archived| :: Describes(env, archived[k], plan[k])
    }

    /** Undisturbed, the attempt goes on exactly while the objects fit the read limit. */
    ghost predicate GoesOn()
      reads this
      requires |archived| <= |plan|
    {
      Undisturbed(env, fates, plan, before) ==>
        if problem.None? then NotThere(plan, |archived|, store) && Readable(plan, |archived|)
        else !Readable(plan, |plan|)
    }

    ghost predicate Due(rest: seq<Put>)
      reads this
    {
      Valid() && Recorded() && GoesOn() && (problem.None? ==> plan[|archived|..] == rest)
    }

    /** The next put of the bundle; nothing more is put after a problem. */
    method PutNext(p: Put, ghost rest: seq<Put>)
      requires Due([p] + rest)
      modifies this
      ensures Due(rest)
    {
      if problem.Some? {
        return;
      }
      assert plan[|archived|] == ([p] + rest)[0];
      assert plan[|archived| + 1..] == ([p] + rest)[1..] == rest;
      ghost var was, done, entries := store, |archived|, archived;
      PutImmutable(p);
      assert forall k | 0 <= k < done :: Describes(env, entries[k], plan[k]);
      assert problem.None? ==> archived == entries + [archived[done]] && Describes(env, archived[done], p);
      assert problem.Some? ==> archived == entries;
      GoesOnAfter(env, fates, plan, before, was, store, done, problem.None?);
    }
  }

  /** What was put is accepted, and reads back as it was exactly if it fits the read limit. */
  lemma StoredReadsBack(env: Env, p: Put, f: Fate)
    ensures Smooth(f, env.cfg) ==> Acceptable(env, p, Stored(env, p, f.putAt), f.lookAt)
    ensures CollisionFree(env.sha) ==>
              (env.sha(Fetched(Stored(env, p, f.putAt))) == env.sha(p.content) <==> |p.content| <= GET_LIMIT)
  {
  }

  predicate Describes(env: Env, a: Archived, p: Put) {
    && a.name == p.name && a.sha == env.sha(p.content) && a.size == |p.content|
    && (env.cfg.lockMode != Off ==> a.lockMode == env.cfg.lockMode && a.retention != NoRetention)
    && (env.cfg.legalHold ==> a.legalHold)
  }

  ghost predicate NotThere(plan: seq<Put>, k: nat, store: Store) {
    forall j | k <= j < |plan| :: plan[j].name !in store
  }

  ghost predicate Readable(plan: seq<Put>, n: nat)
    requires n <= |plan|
  {
    forall j | 0 <= j < n :: |plan[j].content| <= GET_LIMIT
  }

  /** No request fails and nothing of the bundle is there yet. */
  ghost predicate Undisturbed(env: Env, fates: seq<Fate>, plan: seq<Put>, before: Store) {
    && CollisionFree(env.sha) && Bundled(plan) && NotThere(plan, 0, before)
    && forall i | 0 <= i < |fates| :: Smooth(fates[i], env.cfg)
  }

  lemma GoesOnAfter(env: Env, fates: seq<Fate>, plan: seq<Put>, before: Store, was: Store, store: Store, k: nat, fine: bool)
    requires k < |plan| <= |fates|
    requires Undisturbed(env, fates, plan, before) ==> NotThere(plan, k, was) && Readable(plan, k)
    requires store == was || store == was[plan[k].name := Stored(env, plan[k], fates[k].putAt)]
    requires plan[k].name !in was && Smooth(fates[k], env.cfg) && CollisionFree(env.sha) ==> (fine <==> |plan[k].content| <= GET_LIMIT)
    ensures Undisturbed(env, fates, plan, before) ==>
              if fine then NotThere(plan, k + 1, store) && Readable(plan, k + 1) else !Readable(plan, |plan|)
  {
  }

  /** Lock mode, legal hold and retention of a whole archive; no lock mode stands for MIXED. */
  datatype Summary = Summary(lockMode: Option<LockMode>, legalHold: bool, retainUntil: Option<int>)

  /** The one lock mode all objects have, if they have one; whether all are on hold; and the
      earliest date any object is retained until. */
  ghost predicate Summarizes(objects: seq<Archived>, s: Summary) {
    && (s.legalHold <==> forall k | 0 <= k < |objects| :: objects[k].legalHold)
    && (forall mode :: s.lockMode == Some(mode) <==> forall k | 0 <= k < |objects| :: objects[k].lockMode == mode)
    && Earliest(objects, s.retainUntil)
  }

  ghost predicate Earliest(objects: seq<Archived>, time: Option<int>) {
    && (time.Some? ==> exists k :: 0 <= k < |objects| && objects[k].retention == Until(time.value))
    && forall k | 0 <= k < |objects| && objects[k].retention.Until? :: time.Some? && time.value <= objects[k].retention.time
  }

  method Summarize(objects: seq<Archived>) returns (s: Summary)
    requires objects != []
    ensures Summarizes(objects, s)
  {
    var lockMode, hold, least := Some(objects[0].lockMode), true, None;
    for i := 0 to |objects|
      invariant hold <==> forall k | 0 <= k < i :: objects[k].legalHold
      invariant lockMode.Some? ==> lockMode.value == objects[0].lockMode && forall k | 0 <= k < i :: objects[k].lockMode == lockMode.value
      invariant lockMode.None? ==> exists k :: 0 <= k < i && objects[k].lockMode != objects[0].lockMode
      invariant least.Some? ==> exists k :: 0 <= k < i && objects[k].retention == Until(least.value)
      invariant forall k | 0 <= k < i && objects[k].retention.Until? :: least.Some? && least.value <= objects[k].retention.time
    {
      var o := objects[i];
      if lockMode != Some(o.lockMode) {
        lockMode := None;
      }
      if !o.legalHold {
        hold := false;
      }
      if o.retention.Until? && (least.None? || o.retention.time < least.value) {
        least := Some(o.retention.time);
      }
    }
    s := Summary(lockMode, hold, least);
  }

  datatype ArchiveResult = ArchiveResult(committed: bool, objects: seq<Archived>, problem: Option<Problem>, summary: Option<Summary>)

  /** What a successful attempt reports: every object of the bundle, and their summary,
      which shows the lock mode and the legal hold that were asked for. */
  ghost predicate Reports(env: Env, plan: seq<Put>, r: ArchiveResult) {
    && |r.objects| == |plan| && (forall k | 0 <= k < |plan| :: Describes(env, r.objects[k], plan[k]))
    && r.summary.Some? && Summarizes(r.objects, r.summary.value)
    && (env.cfg.lockMode != Off ==> r.summary.value.lockMode == Some(env.cfg.lockMode))
    && (env.cfg.legalHold ==> r.summary.value.legalHold)
  }

  /** Archives a bundle. Whatever happens to its requests, the commit marker is there only
      with everything else, no content changes, and the attempt reports success exactly
      when all objects are in place; undisturbed it succeeds exactly if all objects fit
      the read limit. */
  method ArchiveBundleS3(env: Env, b: Bundle, store: Store, fates: seq<Fate>) returns (r: ArchiveResult, after: Store)
    requires |fates| >= |PlanOf(b)|
    ensures b.evidenceDigest == "" ==> r == ArchiveResult(false, [], Some(EmptyEvidenceDigest), None) && after == store
    ensures r.committed <==> r.problem.None?
    ensures r.committed ==> Reports(env, PlanOf(b), r)
    ensures CollisionFree(env.sha) && Bundled(PlanOf(b)) && ReadyMarks(env, PlanOf(b), store) ==>
              && SameContents(store, after)
              && ReadyMarks(env, PlanOf(b), after)
              && (r.committed ==> AllPresent(env, PlanOf(b), after, |PlanOf(b)|))
    ensures b.evidenceDigest != "" && Undisturbed(env, fates, PlanOf(b), store) ==> (r.committed <==> Readable(PlanOf(b), |PlanOf(b)|))
  {
    if b.evidenceDigest == "" {
      return ArchiveResult(false, [], Some(EmptyEvidenceDigest), None), store;
    }
    ghost var plan := PlanOf(b);
    var u := new Uploader(env, store, fates, plan);
    for i := 0 to |b.artifacts|
      invariant fresh(u) && u.env == env && u.fates == fates && u.plan == plan && u.before == store
      invariant u.Due(b.artifacts[i..] + Signed(b))
    {
      assert b.artifacts[i..] + Signed(b) == [b.artifacts[i]] + (b.artifacts[i + 1..] + Signed(b));
      u.PutNext(b.artifacts[i], b.artifacts[i + 1..] + Signed(b));
    }
    assert b.artifacts[|b.artifacts|..] + Signed(b) == Signed(b);
    PutSigned(u, b);
    after := u.store;
    TraceKeepsMark(env, plan, store, u.trace, u.store, |u.archived|, u.Resting(), u.issued);
    r := ResultOf(env, u.archived, u.problem, plan);
  }

  method ResultOf(env: Env, archived: seq<Archived>, problem: Option<Problem>, ghost plan: seq<Put>) returns (r: ArchiveResult)
    requires problem.None? ==> |archived| == |plan| > 0 && forall k | 0 <= k < |plan| :: Describes(env, archived[k], plan[k])
    ensures r.objects == archived && r.problem == problem && (r.committed <==> problem.None?)
    ensures r.committed ==> Reports(env, plan, r)
  {
    if problem.Some? {
      return ArchiveResult(false, archived, problem, None);
    }
    var s := Summarize(archived);
    r := ArchiveResult(true, archived, None, Some(s));
    if env.cfg.lockMode != Off {
      assert forall k | 0 <= k < |archived| :: archived[k].lockMode == env.cfg.lockMode by {
        assert forall k | 0 <= k < |archived| :: Describes(env, archived[k], plan[k]);
      }
    }
  }

  /** Everything after the artifacts. */
  method PutSigned(u: Uploader, b: Bundle)
    requires u.Due(Signed(b))
    modifies u
    ensures u.Due([])
  {
    ghost var tail := Tail(b);
    ghost var json := Optional("timestamp.json", b.timestampJSON) + tail;
    ghost var token := Optional("manifest.tsr", b.timestampToken) + json;
    ghost var signatures := Optional("ED25519SIGNATURES", b.signatures) + token;
    ghost var hmac := Optional("HMACSHA256SUMS", b.hmacSums) + signatures;
    u.PutNext(Put("SHA256SUMS", b.sums), hmac);
    if b.hmacSums != [] {
      u.PutNext(Put("HMACSHA256SUMS", b.hmacSums), signatures);
    }
    if b.signatures != [] {
      u.PutNext(Put("ED25519SIGNATURES", b.signatures), token);
    }
    if b.timestampToken != [] {
      u.PutNext(Put("manifest.tsr", b.timestampToken), json);
    }
    if b.timestampJSON != [] {
      u.PutNext(Put("timestamp.json", b.timestampJSON), tail);
    }
    u.PutNext(Put("manifest.json", b.manifest), [Put(READY, b.ready)]);
    assert [Put(READY, b.ready)] == [Put(READY, b.ready)] + [];
    u.PutNext(Put(READY, b.ready), []);
  }

  /** If READY.json is there, so is everything before it. */
  ghost predicate ReadyMarks(env: Env, plan: seq<Put>, store: Store) {
    READY in store && plan != [] ==> AllPresent(env, plan, store, |plan| - 1)
  }

  /** What the trace of an attempt says, by the invariants of the machine. */
  lemma TraceKeepsMark(env: Env, plan: seq<Put>, before: Store, trace: seq<Event>, store: Store, next: nat, phase: Phase, issued: set<nat>)
    requires Drawn(trace, {plan})
    requires Exec(env, State(before, [Attempt(plan, 0, Looking, {})]), trace) == State(store, [Attempt(plan, next, phase, issued)])
    ensures CollisionFree(env.sha) && Bundled(plan) && ReadyMarks(env, plan, before) ==>
              && SameContents(before, store) && ReadyMarks(env, plan, store)
              && (phase.Committed? ==> AllPresent(env, plan, store, |plan|))
  {
    if CollisionFree(env.sha) && Bundled(plan) && ReadyMarks(env, plan, before) {
      var start, s := State(before, [Attempt(plan, 0, Looking, {})]), State(store, [Attempt(plan, next, phase, issued)]);
      OneBundleRespects(env, plan, before);
      ExecKeeps(env, before, start, trace);
      ExecKeepsClean(env, before, plan, {plan}, start, trace);
      ContentsNeverChange(env, {plan}, before, start, trace);
      EndKeepsMark(env, plan, before, s);
    }
  }

  lemma EndKeepsMark(env: Env, plan: seq<Put>, before: Store, s: State)
    requires Bundled(plan) && ReadyMarks(env, plan, before) && Inv(env, before, s) && Clean(env, before, plan, s.store)
    requires |s.attempts| == 1 && s.attempts[0].plan == plan
    ensures ReadyMarks(env, plan, s.store)
    ensures s.attempts[0].phase.Committed? ==> AllPresent(env, plan, s.store, |plan|)
  {
    assert AttemptInv(env, before, s.store, s.attempts[0]);
    if s.attempts[0].phase.Committed? {
      PassedIsPresent(env, before, s.store, s.attempts[0], |plan|);
    }
    if READY in s.store && READY !in before {
      MarkVouches(env, {plan}, before, s);
    }
  }

  /** Every request is answered, and the retention is still active when it is checked. */
  predicate Smooth(f: Fate, cfg: Config) {
    && f.lookAnswered && f.put == Acknowledged && f.againAnswered && f.readAnswered
    && (cfg.lockMode != Off ==> f.lookAt < f.putAt + cfg.retentionDays * SECONDS_PER_DAY)
  }
}
