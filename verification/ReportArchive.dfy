/** Archiving a report bundle in an object store: every object is looked up, put if it is
    absent and read back, and READY.json is put last. Any number of attempts, at the same
    bundle or at different ones, may run at once, die at any request, or have a request
    applied late. */
module ReportArchive {
  import opened Wrappers
  import opened Encoding

  type Name = string

  datatype LockMode = Off | Governance | Compliance

  datatype Config = Config(lockMode: LockMode, retentionDays: nat, legalHold: bool)

  /** The retain-until header: absent, not a date, or a date. */
  datatype Retention = NoRetention | Garbled | Until(time: int)

  datatype Object = Object(sha: Option<int>, content: Bytes, lockMode: LockMode, retention: Retention, legalHold: bool)

  type Store = map<Name, Object>

  datatype Put = Put(name: Name, content: Bytes)

  /** `sha` is SHA-256. */
  datatype Env = Env(cfg: Config, sha: Bytes -> int)

  const GET_LIMIT := 0x200_0000

  const READY := "READY.json"

  ghost predicate CollisionFree(sha: Bytes -> int) {
    forall a, b | sha(a) == sha(b) :: a == b
  }

  /** The puts of a bundle: distinct names, READY.json last. */
  ghost predicate Bundled(plan: seq<Put>) {
    && plan != [] && plan[|plan| - 1].name == READY
    && forall i, j | 0 <= i < j < |plan| :: plan[i].name != plan[j].name
  }

  const SECONDS_PER_DAY := 86400

  /** The object a put request stores. */
  function Stored(env: Env, p: Put, now: int): Object {
    Object(Some(env.sha(p.content)), p.content, env.cfg.lockMode,
           if env.cfg.lockMode == Off then NoRetention else Until(now + env.cfg.retentionDays * SECONDS_PER_DAY),
           env.cfg.legalHold)
  }

  /** What a lookup must show before the content is read back. */
  predicate Locked(cfg: Config, o: Object, now: int) {
    && (cfg.lockMode != Off ==>
          && o.lockMode == cfg.lockMode && o.retention != NoRetention
          && ((o.retention.Until? && o.retention.time > now) || (cfg.legalHold && o.legalHold)))
    && (cfg.legalHold ==> o.legalHold)
  }

  predicate Acceptable(env: Env, p: Put, o: Object, now: int) {
    o.sha == Some(env.sha(p.content)) && Locked(env.cfg, o, now)
  }

  /** A read returns at most GET_LIMIT bytes. */
  function Fetched(o: Object): Bytes {
    if |o.content| <= GET_LIMIT then o.content else o.content[..GET_LIMIT]
  }

  /** What a put stores: the content with its digest, under the lock mode and the legal hold
      asked for, and retained for so many days of 86400 seconds if there is a lock mode. */
  lemma StoredMeaning(env: Env, p: Put, now: int)
    ensures var o := Stored(env, p, now);
            && o.sha == Some(env.sha(p.content)) && o.content == p.content
            && o.lockMode == env.cfg.lockMode && o.legalHold == env.cfg.legalHold
            && (env.cfg.lockMode == Off ==> o.retention == NoRetention)
            && (env.cfg.lockMode != Off ==> o.retention == Until(now + 86400 * env.cfg.retentionDays))
  {
  }

  /** What passes for the object of a put: its digest is there and right, it is locked as asked
      for and still retained or on hold, and it is on hold if it was to be. */
  lemma AcceptableMeaning(env: Env, p: Put, o: Object, now: int)
    ensures Acceptable(env, p, o, now) <==>
              && o.sha == Some(env.sha(p.content))
              && (env.cfg.legalHold ==> o.legalHold)
              && (env.cfg.lockMode == Off
                  || (o.lockMode == env.cfg.lockMode
                      && match o.retention
                         case NoRetention => false
                         case Garbled => env.cfg.legalHold
                         case Until(time) => time > now || env.cfg.legalHold))
  {
  }

  /** Reads stop after 32 MiB. */
  lemma FetchedMeaning(o: Object)
    ensures |o.content| <= 33554432 ==> Fetched(o) == o.content
    ensures |o.content| > 33554432 ==> Fetched(o) == o.content[..33554432]
  {
  }

  // ----- attempts

  datatype Phase = Looking | Putting | Relooking | Fetching | Failed | Committed

  /** `issued` are the puts this attempt has sent; they may be applied late. */
  datatype Attempt = Attempt(plan: seq<Put>, next: nat, phase: Phase, issued: set<nat>)

  datatype State = State(store: Store, attempts: seq<Attempt>)

  datatype Event =
    | Begin(plan: seq<Put>)
    | RequestFails(attempt: nat)
    | Look(attempt: nat, now: int)
    | Send(attempt: nat)
    | Apply(attempt: nat, put: nat, now: int)
    | PutAcked(attempt: nat)
    | Fetch(attempt: nat)

  predicate Active(s: State, i: nat) {
    i < |s.attempts| && s.attempts[i].next < |s.attempts[i].plan| && s.attempts[i].phase !in {Failed, Committed}
  }

  /** Looking up the next object, before or after putting it. */
  function Looked(env: Env, store: Store, a: Attempt, now: int): Attempt
    requires a.next < |a.plan|
  {
    var p := a.plan[a.next];
    if p.name !in store then a.(phase := if a.phase.Looking? then Putting else Failed)
    else a.(phase := if Acceptable(env, p, store[p.name], now) then Fetching else Failed)
  }

  function FetchedBack(env: Env, store: Store, a: Attempt): Attempt
    requires a.next < |a.plan|
  {
    var p := a.plan[a.next];
    if p.name in store && env.sha(Fetched(store[p.name])) == env.sha(p.content) then
      a.(next := a.next + 1, phase := if a.next + 1 == |a.plan| then Committed else Looking)
    else a.(phase := Failed)
  }

  /** What one event of an attempt does to the attempt. */
  function Moved(env: Env, store: Store, a: Attempt, e: Event): Attempt
    requires a.next < |a.plan|
  {
    match e
    case RequestFails(_) => a.(phase := Failed)
    case Look(_, now) => if a.phase.Looking? || a.phase.Relooking? then Looked(env, store, a, now) else a
    case Send(_) => if a.phase.Putting? then a.(issued := a.issued + {a.next}) else a
    case PutAcked(_) => if a.phase.Putting? && a.next in a.issued then a.(phase := Relooking) else a
    case Fetch(_) => if a.phase.Fetching? then FetchedBack(env, store, a) else a
    case _ => a
  }

  function Next(env: Env, s: State, e: Event): State {
    match e
    case Begin(plan) => s.(attempts := s.attempts + [Attempt(plan, 0, Looking, {})])
    case Apply(i, k, now) =>
      if i < |s.attempts| && k in s.attempts[i].issued && k < |s.attempts[i].plan| then
        var p := s.attempts[i].plan[k];
        s.(store := s.store[p.name := Stored(env, p, now)])
      else s
    case _ =>
      if Active(s, e.attempt) then
        s.(attempts := s.attempts[e.attempt := Moved(env, s.store, s.attempts[e.attempt], e)])
      else s
  }

  function Exec(env: Env, s: State, events: seq<Event>): State
    decreases |events|
  {
    if events == [] then s else Exec(env, Next(env, s, events[0]), events[1..])
  }

  lemma {:induction false} ExecConcat(env: Env, s: State, a: seq<Event>, b: seq<Event>)
    ensures Exec(env, s, a + b) == Exec(env, Exec(env, s, a), b)
    decreases |a|
  {
    if a == [] {
      assert a + b == b;
    } else {
      assert (a + b)[1..] == a[1..] + b;
      ExecConcat(env, Next(env, s, a[0]), a[1..], b);
    }
  }

  lemma ExecOne(env: Env, s: State, e: Event)
    ensures Exec(env, s, [e]) == Next(env, s, e)
  {
    assert [e][1..] == [];
  }

  // ----- what an attempt can get past

  /** A time at which the retention of the object has not run out, if there is one. */
  function Moment(o: Object): int {
    if o.retention.Until? then o.retention.time - 1 else 0
  }

  /** An attempt can get past this put: what was there at the start is the put's object, or
      nothing was and the put fits the read limit. */
  predicate Passable(env: Env, s0: Store, p: Put) {
    if p.name in s0 then Acceptable(env, p, s0[p.name], Moment(s0[p.name])) && Fetched(s0[p.name]) == p.content
    else |p.content| <= GET_LIMIT
  }

  ghost predicate Completable(env: Env, s0: Store, plan: seq<Put>) {
    forall k | 0 <= k < |plan| :: Passable(env, s0, plan[k])
  }

  /** An attempt at this plan can come to put the object d. */
  ghost predicate Reaches(env: Env, s0: Store, plan: seq<Put>, d: nat) {
    d < |plan| && plan[d].name !in s0 && forall j | 0 <= j < d :: Passable(env, s0, plan[j])
  }

  /** The put stores another content under a name of the plan. */
  ghost predicate Differs(plan: seq<Put>, p: Put) {
    exists k :: DiffersAt(plan, k, p)
  }

  ghost predicate DiffersAt(plan: seq<Put>, k: int, p: Put) {
    0 <= k < |plan| && plan[k].name == p.name && plan[k].content != p.content
  }

  /** No put that an attempt at `other` can come to send differs from the plan. */
  ghost predicate Respects(env: Env, s0: Store, plan: seq<Put>, other: seq<Put>) {
    forall d: nat | Reaches(env, s0, other, d) :: !Differs(plan, other[d])
  }

  lemma RespectsItself(env: Env, s0: Store, plan: seq<Put>)
    requires Bundled(plan)
    ensures Respects(env, s0, plan, plan)
  {
    forall d: nat | Reaches(env, s0, plan, d) ensures !Differs(plan, plan[d]) {
      forall k ensures !DiffersAt(plan, k, plan[d]) {
        assert 0 <= k < |plan| && plan[k].name == plan[d].name ==> k == d;
      }
    }
  }

  // ----- what every step keeps, whatever is archived

  predicate Passed(env: Env, s0: Store, store: Store, p: Put) {
    Passable(env, s0, p) && p.name in store
  }

  /** An attempt has got past everything before `next`, and sends a put only for an object
      that was not there at the start, after everything before it. */
  ghost predicate AttemptInv(env: Env, s0: Store, store: Store, a: Attempt) {
    && a.next <= |a.plan|
    && (forall k | 0 <= k < a.next :: Passed(env, s0, store, a.plan[k]))
    && (a.phase.Committed? ==> a.next == |a.plan|)
    && (a.phase.Putting? && a.next < |a.plan| ==> a.plan[a.next].name !in s0)
    && (a.phase.Fetching? && a.next < |a.plan| ==> Accepted(env, s0, store, a.plan[a.next]))
    && forall k | k in a.issued :: k <= a.next && k < |a.plan| && a.plan[k].name !in s0
  }

  predicate Accepted(env: Env, s0: Store, store: Store, p: Put) {
    p.name in store && (p.name in s0 ==> Acceptable(env, p, s0[p.name], Moment(s0[p.name])))
  }

  /** What was there at the start is still as it was. */
  ghost predicate Kept(s0: Store, store: Store) {
    forall name | name in s0 :: name in store && store[name] == s0[name]
  }

  /** Some attempt has sent a put under this name. */
  ghost predicate PutBy(s: State, name: Name) {
    exists i, k :: SentAs(s, i, k, name)
  }

  ghost predicate SentAs(s: State, i: int, k: nat, name: Name) {
    0 <= i < |s.attempts| && k in s.attempts[i].issued && k < |s.attempts[i].plan| && s.attempts[i].plan[k].name == name
  }

  ghost predicate Inv(env: Env, s0: Store, s: State) {
    && Kept(s0, s.store)
    && (forall i | 0 <= i < |s.attempts| :: AttemptInv(env, s0, s.store, s.attempts[i]))
    && forall name | name in s.store && name !in s0 :: PutBy(s, name)
  }

  lemma AttemptMoves(env: Env, s0: Store, store: Store, a: Attempt, e: Event)
    requires CollisionFree(env.sha) && AttemptInv(env, s0, store, a) && Kept(s0, store)
    requires a.next < |a.plan| && a.phase !in {Failed, Committed}
    ensures AttemptInv(env, s0, store, Moved(env, store, a, e))
  {
    var p := a.plan[a.next];
    if e.Fetch? && a.phase.Fetching? && env.sha(Fetched(store[p.name])) == env.sha(p.content) {
      assert Fetched(store[p.name]) == p.content;
      assert Passed(env, s0, store, p);
    }
  }

  lemma ApplyKeepsAttempt(env: Env, s0: Store, store: Store, a: Attempt, name: Name, o: Object)
    requires AttemptInv(env, s0, store, a)
    ensures AttemptInv(env, s0, store[name := o], a)
  {
    forall k | 0 <= k < a.next ensures Passed(env, s0, store[name := o], a.plan[k]) {
      assert Passed(env, s0, store, a.plan[k]);
    }
  }

  lemma ApplyKeeps(env: Env, s0: Store, s: State, i: nat, k: nat, now: int)
    requires Inv(env, s0, s)
    ensures Inv(env, s0, Next(env, s, Apply(i, k, now)))
  {
    if i < |s.attempts| && k in s.attempts[i].issued && k < |s.attempts[i].plan| {
      assert AttemptInv(env, s0, s.store, s.attempts[i]);
      var p, s' := s.attempts[i].plan[k], Next(env, s, Apply(i, k, now));
      forall j | 0 <= j < |s.attempts| ensures AttemptInv(env, s0, s'.store, s.attempts[j]) {
        ApplyKeepsAttempt(env, s0, s.store, s.attempts[j], p.name, Stored(env, p, now));
      }
      forall name | name in s'.store && name !in s0 ensures PutBy(s', name) {
        if name == p.name {
          assert SentAs(s', i, k, name);
        } else {
          StaysPut(s, s', name);
        }
      }
    }
  }

  /** Attempts forget no put they sent. */
  lemma StaysPut(s: State, s': State, name: Name)
    requires PutBy(s, name) && |s.attempts| <= |s'.attempts|
    requires forall i | 0 <= i < |s.attempts| ::
               s'.attempts[i].plan == s.attempts[i].plan && s.attempts[i].issued <= s'.attempts[i].issued
    ensures PutBy(s', name)
  {
    var i, k :| SentAs(s, i, k, name);
    assert SentAs(s', i, k, name);
  }

  lemma StillPut(s0: Store, s: State, s': State)
    requires s'.store == s.store && |s.attempts| <= |s'.attempts|
    requires forall i | 0 <= i < |s.attempts| ::
               s'.attempts[i].plan == s.attempts[i].plan && s.attempts[i].issued <= s'.attempts[i].issued
    requires forall name | name in s.store && name !in s0 :: PutBy(s, name)
    ensures forall name | name in s'.store && name !in s0 :: PutBy(s', name)
  {
    forall name | name in s'.store && name !in s0 ensures PutBy(s', name) {
      StaysPut(s, s', name);
    }
  }

  lemma BeginKeeps(env: Env, s0: Store, s: State, plan: seq<Put>)
    requires Inv(env, s0, s)
    ensures Inv(env, s0, Next(env, s, Begin(plan)))
  {
    StillPut(s0, s, Next(env, s, Begin(plan)));
  }

  lemma MoveKeeps(env: Env, s0: Store, s: State, e: Event)
    requires CollisionFree(env.sha) && Inv(env, s0, s) && !e.Begin? && !e.Apply? && Active(s, e.attempt)
    ensures Inv(env, s0, Next(env, s, e))
  {
    assert AttemptInv(env, s0, s.store, s.attempts[e.attempt]);
    AttemptMoves(env, s0, s.store, s.attempts[e.attempt], e);
    StillPut(s0, s, Next(env, s, e));
  }

  /** Whatever bundles are archived at once: no event touches what was there at the start,
      and no attempt gets past an object or sends a put but in its turn. */
  lemma NextKeeps(env: Env, s0: Store, s: State, e: Event)
    requires CollisionFree(env.sha) && Inv(env, s0, s)
    ensures Inv(env, s0, Next(env, s, e))
  {
    match e
    case Begin(plan) => BeginKeeps(env, s0, s, plan);
    case Apply(i, k, now) => ApplyKeeps(env, s0, s, i, k, now);
    case _ =>
      if Active(s, e.attempt) {
        MoveKeeps(env, s0, s, e);
      }
  }

  lemma {:induction false} ExecKeeps(env: Env, s0: Store, s: State, events: seq<Event>)
    requires CollisionFree(env.sha) && Inv(env, s0, s)
    ensures Inv(env, s0, Exec(env, s, events))
    decreases |events|
  {
    if events != [] {
      NextKeeps(env, s0, s, events[0]);
      ExecKeeps(env, s0, Next(env, s, events[0]), events[1..]);
    }
  }

  // ----- what bundles that respect each other keep

  predicate Labelled(env: Env, p: Put, o: Object) {
    && o.sha == Some(env.sha(p.content))
    && (env.cfg.lockMode != Off ==> o.lockMode == env.cfg.lockMode)
    && (env.cfg.legalHold ==> o.legalHold)
  }

  /** The object reads back as the put, and has the attributes of an immutable object. */
  predicate ReadsAs(env: Env, p: Put, o: Object) {
    Fetched(o) == p.content && Labelled(env, p, o)
  }

  ghost predicate AllPresent(env: Env, plan: seq<Put>, store: Store, n: nat)
    requires n <= |plan|
  {
    forall k | 0 <= k < n :: plan[k].name in store && ReadsAs(env, plan[k], store[plan[k].name])
  }

  /** What came under the names of the plan is the plan's. */
  ghost predicate Clean(env: Env, s0: Store, plan: seq<Put>, store: Store) {
    forall k | 0 <= k < |plan| && plan[k].name in store && plan[k].name !in s0 :: IsPut(env, plan[k], store[plan[k].name])
  }

  predicate IsPut(env: Env, p: Put, o: Object) {
    o.content == p.content && Labelled(env, p, o)
  }

  /** Every attempt is at one of these plans. */
  ghost predicate Among(s: State, plans: set<seq<Put>>) {
    forall i | 0 <= i < |s.attempts| :: s.attempts[i].plan in plans
  }

  ghost predicate Drawn(events: seq<Event>, plans: set<seq<Put>>) {
    forall i | 0 <= i < |events| && events[i].Begin? :: events[i].plan in plans
  }

  /** All attempts at these plans respect the plan. */
  ghost predicate AllRespect(env: Env, s0: Store, plan: seq<Put>, plans: set<seq<Put>>) {
    forall other | other in plans :: Respects(env, s0, plan, other)
  }

  lemma NextIsAmong(plans: set<seq<Put>>, env: Env, s: State, events: seq<Event>)
    requires events != [] && Among(s, plans) && Drawn(events, plans)
    ensures Among(Next(env, s, events[0]), plans) && Drawn(events[1..], plans)
  {
    assert forall i | 0 <= i < |events[1..]| :: events[1..][i] == events[i + 1];
  }

  lemma {:induction false} AreAmong(env: Env, plans: set<seq<Put>>, s: State, events: seq<Event>)
    requires Among(s, plans) && Drawn(events, plans)
    ensures Among(Exec(env, s, events), plans)
    decreases |events|
  {
    if events != [] {
      NextIsAmong(plans, env, s, events);
      AreAmong(env, plans, Next(env, s, events[0]), events[1..]);
    }
  }

  lemma NextKeepsClean(env: Env, s0: Store, plan: seq<Put>, plans: set<seq<Put>>, s: State, e: Event)
    requires Inv(env, s0, s) && Among(s, plans) && AllRespect(env, s0, plan, plans) && Clean(env, s0, plan, s.store)
    ensures Clean(env, s0, plan, Next(env, s, e).store)
  {
    if e.Apply? && e.attempt < |s.attempts| && e.put in s.attempts[e.attempt].issued && e.put < |s.attempts[e.attempt].plan| {
      var a := s.attempts[e.attempt];
      assert AttemptInv(env, s0, s.store, a);
      assert Passes(env, s0, a, e.put) by {
        assert forall k | 0 <= k < e.put :: Passed(env, s0, s.store, a.plan[k]);
      }
      assert Reaches(env, s0, a.plan, e.put);
      assert !Differs(plan, a.plan[e.put]);
      StoresClean(env, s0, plan, s.store, a.plan[e.put], e.now);
    }
  }

  ghost predicate Passes(env: Env, s0: Store, a: Attempt, n: nat) {
    n <= |a.plan| && forall k | 0 <= k < n :: Passable(env, s0, a.plan[k])
  }

  lemma StoresClean(env: Env, s0: Store, plan: seq<Put>, store: Store, p: Put, now: int)
    requires Clean(env, s0, plan, store) && !Differs(plan, p)
    ensures Clean(env, s0, plan, store[p.name := Stored(env, p, now)])
  {
    var store' := store[p.name := Stored(env, p, now)];
    forall k | 0 <= k < |plan| && plan[k].name in store' && plan[k].name !in s0
      ensures IsPut(env, plan[k], store'[plan[k].name])
    {
      if plan[k].name == p.name {
        assert !DiffersAt(plan, k, p);
      }
    }
  }

  lemma {:induction false} ExecKeepsClean(env: Env, s0: Store, plan: seq<Put>, plans: set<seq<Put>>, s: State, events: seq<Event>)
    requires CollisionFree(env.sha) && Inv(env, s0, s) && Among(s, plans) && Drawn(events, plans)
    requires AllRespect(env, s0, plan, plans) && Clean(env, s0, plan, s.store)
    ensures Clean(env, s0, plan, Exec(env, s, events).store) && Among(Exec(env, s, events), plans)
    decreases |events|
  {
    if events != [] {
      NextKeeps(env, s0, s, events[0]);
      NextKeepsClean(env, s0, plan, plans, s, events[0]);
      NextIsAmong(plans, env, s, events);
      ExecKeepsClean(env, s0, plan, plans, Next(env, s, events[0]), events[1..]);
    }
  }

  /** What an attempt has got past reads back as its bundle's. */
  lemma PassedIsPresent(env: Env, s0: Store, store: Store, a: Attempt, n: nat)
    requires Kept(s0, store) && AttemptInv(env, s0, store, a) && Clean(env, s0, a.plan, store) && n <= a.next
    ensures AllPresent(env, a.plan, store, n)
  {
    forall k | 0 <= k < n ensures a.plan[k].name in store && ReadsAs(env, a.plan[k], store[a.plan[k].name]) {
      assert Passed(env, s0, store, a.plan[k]);
    }
  }

  // ----- what a reader of the store may rely on

  /** A committed bundle is in place. */
  ghost predicate CommittedArePresent(env: Env, s: State) {
    forall i | 0 <= i < |s.attempts| && s.attempts[i].phase.Committed? ::
      AllPresent(env, s.attempts[i].plan, s.store, |s.attempts[i].plan|)
  }

  ghost predicate PairwiseRespect(env: Env, s0: Store, plans: set<seq<Put>>) {
    forall plan | plan in plans :: AllRespect(env, s0, plan, plans)
  }

  /** READY.json is that of this bundle, and everything before it is in place. */
  ghost predicate Vouches(env: Env, plan: seq<Put>, store: Store) {
    && plan != [] && READY in store && store[READY].content == plan[|plan| - 1].content
    && AllPresent(env, plan, store, |plan| - 1)
  }

  /** Whatever attempts at bundles that respect each other did, crashed in or still have
      under way: READY.json, if it was not there before, vouches for a bundle that is in
      place, and an attempt is committed only with all of its bundle in place. */
  lemma ReadyMeansComplete(env: Env, plans: set<seq<Put>>, s0: Store, events: seq<Event>)
    requires CollisionFree(env.sha) && (forall plan | plan in plans :: Bundled(plan))
    requires PairwiseRespect(env, s0, plans) && Drawn(events, plans)
    ensures var s := Exec(env, State(s0, []), events);
            && (READY in s.store && READY !in s0 ==> exists plan :: plan in plans && Vouches(env, plan, s.store))
            && CommittedArePresent(env, s)
  {
    var s := Exec(env, State(s0, []), events);
    ExecKeeps(env, s0, State(s0, []), events);
    forall plan | plan in plans ensures Clean(env, s0, plan, s.store) && Among(s, plans) {
      ExecKeepsClean(env, s0, plan, plans, State(s0, []), events);
    }
    AreAmong(env, plans, State(s0, []), events);
    forall i | 0 <= i < |s.attempts| && s.attempts[i].phase.Committed?
      ensures AllPresent(env, s.attempts[i].plan, s.store, |s.attempts[i].plan|)
    {
      PassedIsPresent(env, s0, s.store, s.attempts[i], |s.attempts[i].plan|);
    }
    if READY in s.store && READY !in s0 {
      MarkVouches(env, plans, s0, s);
    }
  }

  /** READY.json is only ever put after everything else was read back. */
  lemma MarkVouches(env: Env, plans: set<seq<Put>>, s0: Store, s: State)
    requires (forall plan | plan in plans :: Bundled(plan)) && AllClean(env, s0, plans, s.store)
    requires Inv(env, s0, s) && Among(s, plans) && READY in s.store && READY !in s0
    ensures exists plan :: plan in plans && Vouches(env, plan, s.store)
  {
    assert PutBy(s, READY);
    var i, k :| SentAs(s, i, k, READY);
    var a := s.attempts[i];
    var last := |a.plan| - 1;
    assert a.plan in plans && Bundled(a.plan) && k == last;
    assert AttemptInv(env, s0, s.store, a);
    PassedIsPresent(env, s0, s.store, a, last);
    assert IsPut(env, a.plan[last], s.store[READY]);
    assert Vouches(env, a.plan, s.store);
  }

  /** Attempts at one and the same bundle respect each other. */
  lemma OneBundleRespects(env: Env, plan: seq<Put>, s0: Store)
    requires Bundled(plan)
    ensures PairwiseRespect(env, s0, {plan})
  {
    RespectsItself(env, s0, plan);
  }

  ghost predicate SameContents(a: Store, b: Store) {
    forall name | name in a :: name in b && b[name].content == a[name].content
  }

  ghost predicate AllClean(env: Env, s0: Store, plans: set<seq<Put>>, store: Store) {
    forall plan | plan in plans :: Clean(env, s0, plan, store)
  }

  lemma NextKeepsAllClean(env: Env, s0: Store, plans: set<seq<Put>>, s: State, e: Event)
    requires Inv(env, s0, s) && Among(s, plans) && PairwiseRespect(env, s0, plans) && AllClean(env, s0, plans, s.store)
    ensures AllClean(env, s0, plans, Next(env, s, e).store)
  {
    forall plan | plan in plans ensures Clean(env, s0, plan, Next(env, s, e).store) {
      NextKeepsClean(env, s0, plan, plans, s, e);
    }
  }

  lemma NextKeepsContents(env: Env, s0: Store, plans: set<seq<Put>>, s: State, e: Event)
    requires Inv(env, s0, s) && Among(s, plans) && AllClean(env, s0, plans, s.store)
    ensures SameContents(s.store, Next(env, s, e).store)
  {
    if e.Apply? && e.attempt < |s.attempts| && e.put in s.attempts[e.attempt].issued && e.put < |s.attempts[e.attempt].plan| {
      var a := s.attempts[e.attempt];
      assert AttemptInv(env, s0, s.store, a) && Clean(env, s0, a.plan, s.store);
      var p := a.plan[e.put];
      assert p.name in s.store ==> IsPut(env, p, s.store[p.name]);
    }
  }

  /** While bundles that respect each other are archived, a stored object keeps its content. */
  lemma {:induction false} ContentsNeverChange(env: Env, plans: set<seq<Put>>, s0: Store, s: State, events: seq<Event>)
    requires CollisionFree(env.sha) && Inv(env, s0, s) && Among(s, plans) && Drawn(events, plans)
    requires PairwiseRespect(env, s0, plans) && AllClean(env, s0, plans, s.store)
    ensures SameContents(s.store, Exec(env, s, events).store)
    decreases |events|
  {
    if events != [] {
      var s' := Next(env, s, events[0]);
      NextKeepsContents(env, s0, plans, s, events[0]);
      NextKeeps(env, s0, s, events[0]);
      NextKeepsAllClean(env, s0, plans, s, events[0]);
      NextIsAmong(plans, env, s, events);
      ContentsNeverChange(env, plans, s0, s', events[1..]);
    }
  }

  /** The metadata of every object in the store names its content. */
  ghost predicate Honest(env: Env, store: Store) {
    forall name | name in store :: store[name].sha == Some(env.sha(store[name].content))
  }

  /** Among objects with honest metadata, what a committed attempt leaves is its bundle,
      whole; so a bundle with an object beyond the read limit is never committed. */
  lemma CommittedIsWhole(env: Env, plans: set<seq<Put>>, s0: Store, events: seq<Event>, i: nat, k: nat)
    requires CollisionFree(env.sha) && PairwiseRespect(env, s0, plans) && Drawn(events, plans) && Honest(env, s0)
    requires var s := Exec(env, State(s0, []), events);
             i < |s.attempts| && s.attempts[i].phase.Committed? && k < |s.attempts[i].plan|
    ensures var s := Exec(env, State(s0, []), events); var p := s.attempts[i].plan[k];
            p.name in s.store && s.store[p.name].content == p.content && |p.content| <= GET_LIMIT
  {
    var s := Exec(env, State(s0, []), events);
    var plan := s.attempts[i].plan;
    ExecKeeps(env, s0, State(s0, []), events);
    AreAmong(env, plans, State(s0, []), events);
    ExecKeepsClean(env, s0, plan, plans, State(s0, []), events);
    assert AttemptInv(env, s0, s.store, s.attempts[i]);
    assert Passed(env, s0, s.store, plan[k]);
  }
}
