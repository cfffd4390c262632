/** When bundles archived under the same names can mix: an attempt commits its bundle, and
    a put of another bundle then replaces one of its objects. */
module Mixing {
  import opened Wrappers
  import opened Encoding
  import opened ReportArchive

  // ----- one attempt running undisturbed

  /** Where an attempt stands that has got past n objects. */
  function PhaseAt(plan: seq<Put>, n: nat): Phase {
    if n == |plan| then Committed else Looking
  }

  /** The attempt i stands before its n-th object. */
  ghost predicate Stands(s: State, i: nat, plan: seq<Put>, n: nat) {
    && i < |s.attempts| && n <= |plan|
    && s.attempts[i] == Attempt(plan, n, PhaseAt(plan, n), s.attempts[i].issued)
  }

  /** The attempts other than i are as they were. */
  ghost predicate OthersSame(s: State, s': State, i: nat) {
    && |s'.attempts| == |s.attempts|
    && forall j | 0 <= j < |s.attempts| && j != i :: s'.attempts[j] == s.attempts[j]
  }

  /** The store with the put's object, unless there was one under its name. */
  function Settle(env: Env, store: Store, p: Put): Store {
    if p.name in store then store else store[p.name := Stored(env, p, 0)]
  }

  function SettleAll(env: Env, store: Store, puts: seq<Put>): Store
    decreases |puts|
  {
    if puts == [] then store else SettleAll(env, Settle(env, store, puts[0]), puts[1..])
  }

  ghost predicate NoBegin(events: seq<Event>) {
    forall i | 0 <= i < |events| :: !events[i].Begin?
  }

  /** What was put is accepted and reads back, if it fits the read limit. */
  lemma StoredPasses(env: Env, store: Store, p: Put)
    requires |p.content| <= GET_LIMIT
    ensures Passable(env, store[p.name := Stored(env, p, 0)], p)
  {
  }

  function VerifyEvents(i: nat, now: int): seq<Event> {
    [Look(i, now), Fetch(i)]
  }

  function PutEvents(i: nat, k: nat): seq<Event> {
    [Look(i, 0)] + ([Send(i)] + ([Apply(i, k, 0)] + [PutAcked(i)]))
  }

  lemma ExecTwo(env: Env, s: State, a: Event, b: Event)
    ensures Exec(env, s, [a, b]) == Next(env, Next(env, s, a), b)
  {
    assert [a, b] == [a] + [b];
    ExecConcat(env, s, [a], [b]);
    ExecOne(env, s, a);
    ExecOne(env, Next(env, s, a), b);
  }

  /** An object that is there and passes is looked up and read back. */
  lemma Verifies(env: Env, s: State, i: nat, plan: seq<Put>, n: nat, phase: Phase)
    requires i < |s.attempts| && n < |plan| && (phase.Looking? || phase.Relooking?)
    requires s.attempts[i] == Attempt(plan, n, phase, s.attempts[i].issued)
    requires plan[n].name in s.store && Passable(env, s.store, plan[n])
    ensures var s' := Exec(env, s, VerifyEvents(i, Moment(s.store[plan[n].name])));
            s'.store == s.store && Stands(s', i, plan, n + 1) && OthersSame(s, s', i)
  {
    var now := Moment(s.store[plan[n].name]);
    ExecTwo(env, s, Look(i, now), Fetch(i));
    assert Next(env, s, Look(i, now)).attempts[i] == Attempt(plan, n, Fetching, s.attempts[i].issued);
  }

  /** An object that is not there is put. */
  lemma Puts(env: Env, s: State, i: nat, plan: seq<Put>, n: nat)
    requires Stands(s, i, plan, n) && n < |plan| && plan[n].name !in s.store
    ensures var s' := Exec(env, s, PutEvents(i, n));
            && s'.store == Settle(env, s.store, plan[n]) && OthersSame(s, s', i)
            && s'.attempts[i] == Attempt(plan, n, Relooking, s.attempts[i].issued + {n})
  {
    var looked := Next(env, s, Look(i, 0));
    var sent := Next(env, looked, Send(i));
    var applied := Next(env, sent, Apply(i, n, 0));
    ExecConcat(env, s, [Look(i, 0)], [Send(i)] + ([Apply(i, n, 0)] + [PutAcked(i)]));
    ExecOne(env, s, Look(i, 0));
    ExecConcat(env, looked, [Send(i)], [Apply(i, n, 0)] + [PutAcked(i)]);
    ExecOne(env, looked, Send(i));
    ExecConcat(env, sent, [Apply(i, n, 0)], [PutAcked(i)]);
    ExecOne(env, sent, Apply(i, n, 0));
    ExecOne(env, applied, PutAcked(i));
    assert looked.attempts[i] == Attempt(plan, n, Putting, s.attempts[i].issued);
    assert sent.attempts[i] == Attempt(plan, n, Putting, s.attempts[i].issued + {n});
  }

  lemma OneObject(env: Env, s: State, i: nat, plan: seq<Put>, n: nat) returns (events: seq<Event>)
    requires Stands(s, i, plan, n) && n < |plan| && Passable(env, s.store, plan[n])
    ensures NoBegin(events)
    ensures var s' := Exec(env, s, events);
            s'.store == Settle(env, s.store, plan[n]) && Stands(s', i, plan, n + 1) && OthersSame(s, s', i)
  {
    var name := plan[n].name;
    if name in s.store {
      events := VerifyEvents(i, Moment(s.store[name]));
      Verifies(env, s, i, plan, n, Looking);
    } else {
      var put := Exec(env, s, PutEvents(i, n));
      Puts(env, s, i, plan, n);
      StoredPasses(env, s.store, plan[n]);
      Verifies(env, put, i, plan, n, Relooking);
      events := PutEvents(i, n) + VerifyEvents(i, Moment(put.store[name]));
      ExecConcat(env, s, PutEvents(i, n), VerifyEvents(i, Moment(put.store[name])));
    }
  }

  ghost predicate PassableFrom(env: Env, store: Store, plan: seq<Put>, n: nat, m: nat) {
    n <= m <= |plan| && forall j | n <= j < m :: Passable(env, store, plan[j])
  }

  ghost predicate Distinct(plan: seq<Put>) {
    forall i, j | 0 <= i < j < |plan| :: plan[i].name != plan[j].name
  }

  /** An attempt that is left alone gets past any objects it can get past. */
  lemma {:induction false} ManyObjects(env: Env, s: State, i: nat, plan: seq<Put>, n: nat, m: nat) returns (events: seq<Event>)
    requires Stands(s, i, plan, n) && Distinct(plan) && PassableFrom(env, s.store, plan, n, m)
    ensures NoBegin(events)
    ensures var s' := Exec(env, s, events);
            s'.store == SettleAll(env, s.store, plan[n..m]) && Stands(s', i, plan, m) && OthersSame(s, s', i)
    decreases m - n
  {
    if n == m {
      events := [];
      assert plan[n..m] == [];
    } else {
      var first := OneObject(env, s, i, plan, n);
      var s1 := Exec(env, s, first);
      assert PassableFrom(env, s1.store, plan, n + 1, m);
      var rest := ManyObjects(env, s1, i, plan, n + 1, m);
      events := first + rest;
      ExecConcat(env, s, first, rest);
      assert plan[n..m][1..] == plan[n + 1..m];
    }
  }

  /** Settling adds objects of the puts under new names and changes no others. */
  lemma {:induction false} SettledStore(env: Env, store: Store, puts: seq<Put>, name: Name)
    ensures var after := SettleAll(env, store, puts);
            && (name in store ==> name in after && after[name] == store[name])
            && (name in after && name !in store ==>
                  exists k :: 0 <= k < |puts| && puts[k].name == name && after[name] == Stored(env, puts[k], 0))
    decreases |puts|
  {
    if puts != [] {
      SettledStore(env, Settle(env, store, puts[0]), puts[1..], name);
      var after := SettleAll(env, store, puts);
      if name in after && name !in store && name != puts[0].name {
        var k :| 0 <= k < |puts[1..]| && puts[1..][k].name == name && after[name] == Stored(env, puts[1..][k], 0);
        assert puts[k + 1].name == name && after[name] == Stored(env, puts[k + 1], 0);
      }
    }
  }

  /** After another attempt put objects that agree with the plan, it can still be completed. */
  lemma StillCompletable(env: Env, s0: Store, plan: seq<Put>, puts: seq<Put>)
    requires Completable(env, s0, plan)
    requires forall j | 0 <= j < |puts| && puts[j].name !in s0 :: !Differs(plan, puts[j])
    ensures Completable(env, SettleAll(env, s0, puts), plan)
  {
    var after := SettleAll(env, s0, puts);
    forall k | 0 <= k < |plan| ensures Passable(env, after, plan[k]) {
      var name := plan[k].name;
      SettledStore(env, s0, puts, name);
      assert Passable(env, s0, plan[k]);
      if name in after && name !in s0 {
        var j :| 0 <= j < |puts| && puts[j].name == name && after[name] == Stored(env, puts[j], 0);
        assert !DiffersAt(plan, k, puts[j]);
        assert puts[j] == plan[k];
      }
    }
  }

  // ----- the schedule that mixes

  /** The object d is the first that an attempt at `other` can come to put and that differs. */
  ghost predicate FirstToDiffer(env: Env, s0: Store, plan: seq<Put>, other: seq<Put>, d: nat) {
    && Reaches(env, s0, other, d) && Differs(plan, other[d])
    && forall j | 0 <= j < d && other[j].name !in s0 :: !Differs(plan, other[j])
  }

  lemma {:induction false} FindFirst(env: Env, s0: Store, plan: seq<Put>, other: seq<Put>, d: nat) returns (first: nat)
    requires Reaches(env, s0, other, d) && Differs(plan, other[d])
    ensures FirstToDiffer(env, s0, plan, other, first)
    decreases d
  {
    if j: nat :| j < d && other[j].name !in s0 && Differs(plan, other[j]) {
      first := FindFirst(env, s0, plan, other, j);
    } else {
      first := d;
    }
  }

  /** The other attempt comes to its differing object, finds it absent and sends its put;
      then this attempt begins. */
  lemma OtherWaits(env: Env, s0: Store, plan: seq<Put>, other: seq<Put>, d: nat) returns (events: seq<Event>)
    requires Bundled(other) && FirstToDiffer(env, s0, plan, other, d)
    ensures Drawn(events, {plan, other})
    ensures var s := Exec(env, State(s0, []), events);
            && s.store == SettleAll(env, s0, other[..d]) && |s.attempts| == 2
            && s.attempts[0].plan == other && d in s.attempts[0].issued && s.attempts[1] == Attempt(plan, 0, Looking, {})
  {
    var begun := Next(env, State(s0, []), Begin(other));
    var up := ManyObjects(env, begun, 0, other, 0, d);
    var there := Exec(env, begun, up);
    assert other[0..d] == other[..d];
    SettledStore(env, s0, other[..d], other[d].name);
    var sending := [Look(0, 0), Send(0)] + [Begin(plan)];
    events := [Begin(other)] + (up + sending);
    ExecConcat(env, State(s0, []), [Begin(other)], up + sending);
    ExecOne(env, State(s0, []), Begin(other));
    ExecConcat(env, begun, up, sending);
    ExecConcat(env, there, [Look(0, 0), Send(0)], [Begin(plan)]);
    ExecTwo(env, there, Look(0, 0), Send(0));
    assert Next(env, there, Look(0, 0)).attempts[0].phase.Putting?;
    ExecOne(env, Next(env, Next(env, there, Look(0, 0)), Send(0)), Begin(plan));
  }

  /** Then this attempt commits, and the other's put arrives. */
  lemma Mix(env: Env, s0: Store, plan: seq<Put>, other: seq<Put>, d: nat) returns (events: seq<Event>)
    requires Bundled(plan) && Bundled(other) && Completable(env, s0, plan) && FirstToDiffer(env, s0, plan, other, d)
    ensures Drawn(events, {plan, other})
    ensures var s := Exec(env, State(s0, []), events);
            && |s.attempts| == 2 && s.attempts[1].plan == plan && s.attempts[1].phase.Committed?
            && other[d].name in s.store && s.store[other[d].name] == Stored(env, other[d], 0)
  {
    var start := OtherWaits(env, s0, plan, other, d);
    var s := Exec(env, State(s0, []), start);
    StillCompletable(env, s0, plan, other[..d]);
    var commit := ManyObjects(env, s, 1, plan, 0, |plan|);
    var committed := Exec(env, s, commit);
    events := start + (commit + [Apply(0, d, 0)]);
    ExecConcat(env, State(s0, []), start, commit + [Apply(0, d, 0)]);
    ExecConcat(env, s, commit, [Apply(0, d, 0)]);
    ExecOne(env, committed, Apply(0, d, 0));
    assert committed.attempts[0] == s.attempts[0];
  }

  // ----- exactly when

  /** Over every run of attempts at these bundles, a committed bundle is in place. */
  ghost predicate CommitsHold(env: Env, s0: Store, plans: set<seq<Put>>) {
    forall events | Drawn(events, plans) :: CommittedArePresent(env, Exec(env, State(s0, []), events))
  }

  /** No bundle that can be completed has a put of another stored under one of its names
      with another content. */
  ghost predicate NoneMix(env: Env, s0: Store, plans: set<seq<Put>>) {
    forall plan, other | plan in plans && other in plans && Completable(env, s0, plan) :: Respects(env, s0, plan, other)
  }

  lemma HoldsIfNoneMix(env: Env, s0: Store, plans: set<seq<Put>>, events: seq<Event>)
    requires CollisionFree(env.sha) && NoneMix(env, s0, plans) && Drawn(events, plans)
    ensures CommittedArePresent(env, Exec(env, State(s0, []), events))
  {
    var s := Exec(env, State(s0, []), events);
    ExecKeeps(env, s0, State(s0, []), events);
    AreAmong(env, plans, State(s0, []), events);
    forall i | 0 <= i < |s.attempts| && s.attempts[i].phase.Committed?
      ensures AllPresent(env, s.attempts[i].plan, s.store, |s.attempts[i].plan|)
    {
      var a := s.attempts[i];
      assert AttemptInv(env, s0, s.store, a);
      assert Completable(env, s0, a.plan) by {
        assert forall k | 0 <= k < |a.plan| :: Passed(env, s0, s.store, a.plan[k]);
      }
      ExecKeepsClean(env, s0, a.plan, plans, State(s0, []), events);
      PassedIsPresent(env, s0, s.store, a, |a.plan|);
    }
  }

  lemma MixesIfNot(env: Env, s0: Store, plans: set<seq<Put>>, plan: seq<Put>, other: seq<Put>)
    requires CollisionFree(env.sha) && plan in plans && other in plans && Bundled(plan) && Bundled(other)
    requires Completable(env, s0, plan) && !Respects(env, s0, plan, other)
    ensures !CommitsHold(env, s0, plans)
  {
    var some: nat :| Reaches(env, s0, other, some) && Differs(plan, other[some]);
    var d := FindFirst(env, s0, plan, other, some);
    var events := Mix(env, s0, plan, other, d);
    var s := Exec(env, State(s0, []), events);
    assert Drawn(events, plans);
    var k :| DiffersAt(plan, k, other[d]);
    assert !ReadsAs(env, plan[k], s.store[plan[k].name]);
    assert !AllPresent(env, s.attempts[1].plan, s.store, |s.attempts[1].plan|);
  }

  /** Whatever is there at the start: a committed bundle is in place over every run of
      attempts if and only if no attempt can come to put an object that differs from a
      bundle that can be completed. */
  lemma CommitsHoldIffNoneMix(env: Env, s0: Store, plans: set<seq<Put>>)
    requires CollisionFree(env.sha) && forall plan | plan in plans :: Bundled(plan)
    ensures CommitsHold(env, s0, plans) <==> NoneMix(env, s0, plans)
  {
    if NoneMix(env, s0, plans) {
      forall events | Drawn(events, plans) ensures CommittedArePresent(env, Exec(env, State(s0, []), events)) {
        HoldsIfNoneMix(env, s0, plans, events);
      }
    } else {
      var plan, other :| plan in plans && other in plans && Completable(env, s0, plan) && !Respects(env, s0, plan, other);
      MixesIfNot(env, s0, plans, plan, other);
    }
  }

  ghost predicate Agree(plan: seq<Put>, other: seq<Put>) {
    forall d | 0 <= d < |other| :: !Differs(plan, other[d])
  }

  ghost predicate AllFree(plan: seq<Put>, s0: Store) {
    forall k | 0 <= k < |plan| :: plan[k].name !in s0 && |plan[k].content| <= GET_LIMIT
  }

  /** Bundles that fit the read limit, none of whose names is taken: a committed one stays
      in place if and only if any two of them agree on every name they share. */
  lemma CommitsHoldIffAgree(env: Env, s0: Store, plans: set<seq<Put>>)
    requires CollisionFree(env.sha) && forall plan | plan in plans :: Bundled(plan)
    requires forall plan | plan in plans :: AllFree(plan, s0)
    ensures CommitsHold(env, s0, plans) <==> forall plan, other | plan in plans && other in plans :: Agree(plan, other)
  {
    CommitsHoldIffNoneMix(env, s0, plans);
    forall plan, other | plan in plans && other in plans ensures Respects(env, s0, plan, other) <==> Agree(plan, other) {
      if Respects(env, s0, plan, other) {
        forall d | 0 <= d < |other| ensures !Differs(plan, other[d]) {
          assert Reaches(env, s0, other, d);
        }
      }
    }
  }

  const FIRST_BUNDLE := [Put("report", [1]), Put(READY, [1])]
  const SECOND_BUNDLE := [Put("report", [2]), Put(READY, [1])]

  /** Two bundles that differ in one report do mix in an empty store. */
  lemma DifferentReportsMix(env: Env)
    requires CollisionFree(env.sha)
    ensures !CommitsHold(env, map[], {FIRST_BUNDLE, SECOND_BUNDLE})
  {
    assert "report"[0] != READY[0];
    CommitsHoldIffAgree(env, map[], {FIRST_BUNDLE, SECOND_BUNDLE});
    assert DiffersAt(FIRST_BUNDLE, 0, SECOND_BUNDLE[0]);
    assert !Agree(FIRST_BUNDLE, SECOND_BUNDLE);
  }

  // ----- which bundles can be committed at all

  /** The run leaves an attempt at the plan committed. */
  ghost predicate Commits(env: Env, s0: Store, plan: seq<Put>, events: seq<Event>) {
    exists i :: CommittedAt(Exec(env, State(s0, []), events), i, plan)
  }

  predicate CommittedAt(s: State, i: int, plan: seq<Put>) {
    0 <= i < |s.attempts| && s.attempts[i].plan == plan && s.attempts[i].phase.Committed?
  }

  /** Whatever else is archived: some run commits a bundle if and only if each of its objects
      is there already, as it should be, or fits the read limit. */
  lemma CommitsIffCompletable(env: Env, s0: Store, plan: seq<Put>)
    requires CollisionFree(env.sha) && Bundled(plan)
    ensures (exists events :: Commits(env, s0, plan, events)) <==> Completable(env, s0, plan)
  {
    if Completable(env, s0, plan) {
      var begun := Next(env, State(s0, []), Begin(plan));
      var up := ManyObjects(env, begun, 0, plan, 0, |plan|);
      ExecConcat(env, State(s0, []), [Begin(plan)], up);
      ExecOne(env, State(s0, []), Begin(plan));
      assert CommittedAt(Exec(env, State(s0, []), [Begin(plan)] + up), 0, plan);
      assert Commits(env, s0, plan, [Begin(plan)] + up);
    }
    forall events | Commits(env, s0, plan, events) ensures Completable(env, s0, plan) {
      var s := Exec(env, State(s0, []), events);
      ExecKeeps(env, s0, State(s0, []), events);
      var i :| CommittedAt(s, i, plan);
      assert AttemptInv(env, s0, s.store, s.attempts[i]);
      forall k | 0 <= k < |plan| ensures Passable(env, s0, plan[k]) {
        assert Passed(env, s0, s.store, plan[k]);
      }
    }
  }

  /** A bundle whose report is one byte longer than the read limit. */
  function LargeBundle(): seq<Put> {
    [Put("report", seq(GET_LIMIT + 1, _ => 0)), Put(READY, [1])]
  }

  /** Its report can be put but not verified: no run commits it in an empty store. */
  lemma LargeBundleNeverCommits(env: Env, events: seq<Event>)
    requires CollisionFree(env.sha)
    ensures Bundled(LargeBundle()) && !Commits(env, map[], LargeBundle(), events)
  {
    assert "report"[0] != READY[0];
    CommitsIffCompletable(env, map[], LargeBundle());
    assert !Passable(env, map[], LargeBundle()[0]);
  }
}
