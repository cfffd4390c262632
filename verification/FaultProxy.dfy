/** The fault-injecting TCP proxy: a streaming substring matcher on the client side,
    and the race between arming, forwarding and the upstream's answer. */
module FaultProxy {

  type Bytes = seq<int>

  // ----- the matcher

  ghost predicate OccursAt(t: Bytes, s: Bytes, i: int) {
    0 <= i && i + |t| <= |s| && s[i..i + |t|] == t
  }

  ghost predicate Occurs(t: Bytes, s: Bytes) {
    exists i :: OccursAt(t, s, i)
  }

  /** bytes.Contains, scanning from the left. */
  predicate Contains(s: Bytes, t: Bytes) {
    t <= s || (s != [] && Contains(s[1..], t))
  }

  lemma {:induction false} ContainsIsOccurs(s: Bytes, t: Bytes)
    ensures Contains(s, t) <==> Occurs(t, s)
  {
    if t <= s {
      assert OccursAt(t, s, 0);
    } else if s != [] {
      ContainsIsOccurs(s[1..], t);
      assert s == [s[0]] + s[1..];
      if Occurs(t, s[1..]) {
        var i :| OccursAt(t, s[1..], i);
        OccursBehind(t, [s[0]], s[1..], i);
      }
      if Occurs(t, s) {
        var i :| OccursAt(t, s, i);
        assert i > 0;
        OccursInside(t, [s[0]], s[1..], i);
      }
    }
  }

  lemma OccursBehind(t: Bytes, pre: Bytes, s: Bytes, i: int)
    requires OccursAt(t, s, i)
    ensures OccursAt(t, pre + s, i + |pre|)
  {
    assert (pre + s)[i + |pre|..i + |pre| + |t|] == s[i..i + |t|];
  }

  lemma OccursInside(t: Bytes, pre: Bytes, s: Bytes, i: int)
    requires OccursAt(t, pre + s, i) && i >= |pre|
    ensures OccursAt(t, s, i - |pre|)
  {
    assert (pre + s)[i..i + |t|] == s[i - |pre|..i - |pre| + |t|];
  }

  function Suffix(s: Bytes, k: nat): Bytes {
    if |s| <= k then s else s[|s| - k..]
  }

  lemma OccursPrefix(t: Bytes, s: Bytes, u: Bytes)
    requires Occurs(t, s) && s <= u
    ensures Occurs(t, u)
  {
    var i :| OccursAt(t, s, i);
    assert u[i..i + |t|] == s[i..i + |t|];
    assert OccursAt(t, u, i);
  }

  lemma OccursEarly(t: Bytes, s: Bytes, c: Bytes)
    ensures forall i :: OccursAt(t, s + c, i) && i + |t| <= |s| ==> OccursAt(t, s, i)
  {
    forall i | OccursAt(t, s + c, i) && i + |t| <= |s| ensures OccursAt(t, s, i) {
      assert (s + c)[i..i + |t|] == s[i..i + |t|];
    }
  }

  /** Where the trigger can newly appear: only across or inside the appended chunk, and
      then within the last |t| - 1 bytes before it. */
  lemma OccursAcross(t: Bytes, s: Bytes, c: Bytes)
    requires t != [] && !Occurs(t, s)
    ensures Occurs(t, s + c) <==> Occurs(t, Suffix(s, |t| - 1) + c)
  {
    var tail := Suffix(s, |t| - 1);
    var head := s[..|s| - |tail|];
    assert s + c == head + (tail + c);
    if Occurs(t, s + c) {
      var i :| OccursAt(t, s + c, i);
      OccursEarly(t, s, c);
      OccursInside(t, head, tail + c, i);
    }
    if Occurs(t, tail + c) {
      var i :| OccursAt(t, tail + c, i);
      OccursBehind(t, head, tail + c, i);
    }
  }

  lemma SuffixOfSuffix(s: Bytes, c: Bytes, k: nat)
    ensures Suffix(Suffix(s, k) + c, k) == Suffix(s + c, k)
  {
  }

  datatype Match = Match(tail: Bytes, armed: bool, triggered: nat)

  const IDLE_MATCH := Match([], false, 0)

  /** One client read going through detection. */
  function Feed(t: Bytes, m: Match, chunk: Bytes): Match
    requires t != []
  {
    if m.armed then m
    else
      var probe := m.tail + chunk;
      if Contains(probe, t) then Match(m.tail, true, m.triggered + 1)
      else if |t| > 1 then m.(tail := Suffix(probe, |t| - 1))
      else m
  }

  /** The matcher against the whole stream it has seen. */
  ghost predicate Tracks(t: Bytes, m: Match, seen: Bytes)
    requires t != []
  {
    && m.triggered == (if m.armed then 1 else 0)
    && (!m.armed ==> !Occurs(t, seen) && m.tail == Suffix(seen, |t| - 1))
    && (m.armed ==> Occurs(t, seen))
  }

  lemma FeedTracks(t: Bytes, m: Match, seen: Bytes, chunk: Bytes)
    requires t != [] && Tracks(t, m, seen)
    ensures Tracks(t, Feed(t, m, chunk), seen + chunk)
  {
    if m.armed {
      OccursPrefix(t, seen, seen + chunk);
    } else {
      OccursAcross(t, seen, chunk);
      ContainsIsOccurs(m.tail + chunk, t);
      SuffixOfSuffix(seen, chunk, |t| - 1);
    }
  }

  function Concat(parts: seq<Bytes>): Bytes {
    if parts == [] then [] else Concat(parts[..|parts| - 1]) + parts[|parts| - 1]
  }

  /** However the client's stream is cut into reads, the proxy is armed after k reads
      exactly when the trigger occurs in what those reads contained, and it counts one
      trigger at most. */
  method WatchClient(t: Bytes, parts: seq<Bytes>) returns (armedAfter: seq<bool>, triggered: nat)
    requires t != []
    ensures |armedAfter| == |parts|
    ensures forall k | 0 <= k < |parts| :: armedAfter[k] <==> Occurs(t, Concat(parts[..k + 1]))
    ensures triggered == if Occurs(t, Concat(parts)) then 1 else 0
  {
    var tail: Bytes, armed := [], false;
    triggered, armedAfter := 0, [];
    EmptyTracks(t);
    for k := 0 to |parts|
      invariant |armedAfter| == k
      invariant Tracks(t, Match(tail, armed, triggered), Concat(parts[..k]))
      invariant forall j | 0 <= j < k :: armedAfter[j] <==> Occurs(t, Concat(parts[..j + 1]))
    {
      var chunk := parts[k];
      assert parts[..k + 1][..k] == parts[..k];
      FeedTracks(t, Match(tail, armed, triggered), Concat(parts[..k]), chunk);
      if !armed {
        var probe := tail + chunk;
        if Contains(probe, t) {
          armed := true;
          triggered := triggered + 1;
        } else {
          var keep := |t| - 1;
          if keep > 0 {
            if |probe| > keep {
              probe := probe[|probe| - keep..];
            }
            tail := probe;
          }
        }
      }
      armedAfter := armedAfter + [armed];
    }
    assert parts[..|parts|] == parts;
  }

  lemma EmptyTracks(t: Bytes)
    requires t != []
    ensures Tracks(t, IDLE_MATCH, [])
  {
  }

  // ----- the two pumps and the upstream

  datatype Action = DropServerResponseOnce | ResetAfterTrigger | BlackholeAfterTrigger

  /** An upstream byte, marked with whether the upstream had the complete trigger when it sent it. */
  datatype Answer = Answer(byte: int, after: bool)

  datatype UpPump = UpIdle | UpReady(chunk: Bytes, now: bool) | UpWritten(now: bool) | UpDone

  datatype DownPump = DownIdle | DownHolding(buf: seq<Answer>) | DownWriting(buf: seq<Answer>) | DownDone

  datatype Connection = Connection(
    m: Match, seen: Bytes, up: UpPump, down: DownPump, closed: bool,
    toUpstream: Bytes, received: Bytes, wire: seq<Answer>, delivered: seq<Answer>,
    dropped: nat, resets: nat)

  datatype Event =
    | ClientSends(chunk: Bytes) | Forward | ForwardFails(n: nat) | AfterForward | ClientEnds
    | UpstreamReceives(n: nat) | UpstreamSends(bytes: Bytes)
    | ReadAnswer(n: nat) | Decide | Deliver | DeliverFails(n: nat) | ServerEnds
    | PumpEnded | Cancelled

  const FRESH := Connection(IDLE_MATCH, [], UpIdle, DownIdle, false, [], [], [], [], 0, 0)

  function Mark(bytes: Bytes, after: bool): seq<Answer> {
    seq(|bytes|, i requires 0 <= i < |bytes| => Answer(bytes[i], after))
  }

  ghost function Next(t: Bytes, a: Action, c: Connection, e: Event): Connection
    requires t != []
  {
    match e
    case ClientSends(chunk) =>
      if c.up.UpIdle? && !c.closed && chunk != [] then
        if c.m.armed && a == BlackholeAfterTrigger then c.(dropped := c.dropped + |chunk|)
        else
          // armed is stored before the chunk that completes the trigger is written
          c.(m := Feed(t, c.m, chunk), seen := c.seen + chunk,
             up := UpReady(chunk, !c.m.armed && Feed(t, c.m, chunk).armed))
      else c
    case Forward =>
      if c.up.UpReady? && !c.closed then c.(toUpstream := c.toUpstream + c.up.chunk, up := UpWritten(c.up.now)) else c
    case ForwardFails(n) =>
      if c.up.UpReady? && n <= |c.up.chunk| then c.(toUpstream := c.toUpstream + c.up.chunk[..n], up := UpDone) else c
    case AfterForward =>
      if c.up.UpWritten? then
        if c.up.now && a == ResetAfterTrigger then c.(resets := c.resets + 1, closed := true, up := UpDone)
        else c.(up := UpIdle)
      else c
    case ClientEnds =>
      if c.up.UpIdle? then c.(up := UpDone) else c
    case UpstreamReceives(n) =>
      if n <= |c.toUpstream| then
        c.(received := c.received + c.toUpstream[..n], toUpstream := c.toUpstream[n..])
      else c
    case UpstreamSends(bytes) =>
      c.(wire := c.wire + Mark(bytes, Occurs(t, c.received)))
    case ReadAnswer(n) =>
      if c.down.DownIdle? && !c.closed && 0 < n <= |c.wire| then
        c.(down := DownHolding(c.wire[..n]), wire := c.wire[n..])
      else c
    case Decide =>
      if c.down.DownHolding? then
        if c.m.armed && a == BlackholeAfterTrigger then
          c.(dropped := c.dropped + |c.down.buf|, down := DownIdle)
        else if c.m.armed && a == DropServerResponseOnce then
          c.(dropped := c.dropped + |c.down.buf|, resets := c.resets + 1, closed := true, down := DownDone)
        else c.(down := DownWriting(c.down.buf))
      else c
    case Deliver =>
      if c.down.DownWriting? && !c.closed then c.(delivered := c.delivered + c.down.buf, down := DownIdle) else c
    case DeliverFails(n) =>
      if c.down.DownWriting? && n <= |c.down.buf| then
        c.(delivered := c.delivered + c.down.buf[..n], down := DownDone)
      else c
    case ServerEnds =>
      if c.down.DownIdle? then c.(down := DownDone) else c
    // the handler closes both ends without a reset when a pump has ended or the proxy stops
    case PumpEnded =>
      if c.up.UpDone? || c.down.DownDone? then c.(closed := true) else c
    case Cancelled => c.(closed := true)
  }

  ghost function Exec(t: Bytes, a: Action, c: Connection, events: seq<Event>): Connection
    requires t != []
    decreases |events|
  {
    if events == [] then c else Exec(t, a, Next(t, a, c, events[0]), events[1..])
  }

  ghost predicate NoneAfter(s: seq<Answer>) {
    forall i | 0 <= i < |s| :: !s[i].after
  }

  function InHand(c: Connection): Bytes {
    if c.up.UpReady? then c.up.chunk else []
  }

  /** Bytes of the client's stream that are at the upstream or on the way to it. */
  function Sent(c: Connection): Bytes {
    c.received + c.toUpstream + InHand(c)
  }

  /** Before the proxy is armed the upstream can only have a prefix of a stream without
      the trigger, so there is no late answer anywhere. */
  ghost predicate Quiet(c: Connection) {
    && Sent(c) <= c.seen && (!c.up.UpDone? ==> Sent(c) == c.seen)
    && NoneAfter(c.wire) && (c.down.DownHolding? ==> NoneAfter(c.down.buf))
  }

  ghost predicate Inv(t: Bytes, a: Action, c: Connection)
    requires t != []
  {
    && Tracks(t, c.m, c.seen)
    && (!c.m.armed ==> Quiet(c))
    && (a != ResetAfterTrigger ==> NoneAfter(c.delivered) && (c.down.DownWriting? ==> NoneAfter(c.down.buf)))
  }

  lemma NotYetReceived(t: Bytes, c: Connection)
    requires t != [] && Tracks(t, c.m, c.seen) && Quiet(c) && !c.m.armed
    ensures !Occurs(t, c.received)
  {
    assert c.received <= Sent(c) <= c.seen;
    if Occurs(t, c.received) {
      OccursPrefix(t, c.received, c.seen);
    }
  }

  lemma ClientKeeps(t: Bytes, a: Action, c: Connection, chunk: Bytes)
    requires t != [] && Inv(t, a, c)
    ensures Inv(t, a, Next(t, a, c, ClientSends(chunk)))
  {
    FeedTracks(t, c.m, c.seen, chunk);
    var c' := Next(t, a, c, ClientSends(chunk));
    if !c'.m.armed && c' != c {
      assert Sent(c) == c.received + c.toUpstream;
    }
  }

  lemma ForwardKeeps(t: Bytes, a: Action, c: Connection, e: Event)
    requires t != [] && Inv(t, a, c) && (e.Forward? || e.ForwardFails? || e.AfterForward? || e.ClientEnds?)
    ensures Inv(t, a, Next(t, a, c, e))
  {
    var c' := Next(t, a, c, e);
    if e.Forward? && c' != c {
      assert Sent(c') == Sent(c);
    } else if e.ForwardFails? && c' != c {
      assert Sent(c') <= Sent(c);
    }
  }

  lemma UpstreamKeeps(t: Bytes, a: Action, c: Connection, e: Event)
    requires t != [] && Inv(t, a, c) && (e.UpstreamReceives? || e.UpstreamSends?)
    ensures Inv(t, a, Next(t, a, c, e))
  {
    var c' := Next(t, a, c, e);
    if e.UpstreamSends? && !c.m.armed {
      NotYetReceived(t, c);
    } else if e.UpstreamReceives? && e.n <= |c.toUpstream| {
      assert Sent(c') == Sent(c);
    }
  }

  lemma DownKeeps(t: Bytes, a: Action, c: Connection, e: Event)
    requires t != [] && Inv(t, a, c) && (e.ReadAnswer? || e.Decide? || e.Deliver? || e.DeliverFails? || e.ServerEnds?)
    ensures Inv(t, a, Next(t, a, c, e))
  {
    var c' := Next(t, a, c, e);
    assert Sent(c') == Sent(c);
  }

  lemma NextKeeps(t: Bytes, a: Action, c: Connection, e: Event)
    requires t != [] && Inv(t, a, c)
    ensures Inv(t, a, Next(t, a, c, e))
  {
    match e
    case ClientSends(chunk) => ClientKeeps(t, a, c, chunk);
    case UpstreamSends(_) => UpstreamKeeps(t, a, c, e);
    case UpstreamReceives(_) => UpstreamKeeps(t, a, c, e);
    case ReadAnswer(_) => DownKeeps(t, a, c, e);
    case Decide => DownKeeps(t, a, c, e);
    case Deliver => DownKeeps(t, a, c, e);
    case DeliverFails(_) => DownKeeps(t, a, c, e);
    case ServerEnds => DownKeeps(t, a, c, e);
    case PumpEnded => assert Sent(Next(t, a, c, e)) == Sent(c);
    case Cancelled => assert Sent(Next(t, a, c, e)) == Sent(c);
    case _ => ForwardKeeps(t, a, c, e);
  }

  /** Under every interleaving of the pumps, the network and the upstream, nothing the
      upstream sent after it had the complete trigger reaches the client in the two modes
      that promise it, and at most one trigger is counted. */
  lemma {:induction false} NoLateAnswer(t: Bytes, a: Action, c: Connection, events: seq<Event>)
    requires t != [] && Inv(t, a, c)
    ensures Inv(t, a, Exec(t, a, c, events))
    ensures a != ResetAfterTrigger ==> NoneAfter(Exec(t, a, c, events).delivered)
    ensures Exec(t, a, c, events).m.triggered <= 1
    decreases |events|
  {
    if events != [] {
      NextKeeps(t, a, c, events[0]);
      NoLateAnswer(t, a, Next(t, a, c, events[0]), events[1..]);
    }
  }

  lemma FreshInv(t: Bytes, a: Action)
    requires t != []
    ensures Inv(t, a, FRESH)
  {
    EmptyTracks(t);
  }

  /** The chunk that completed the trigger is the last one the client pump handles. */
  predicate LastChunk(c: Connection) {
    (c.up.UpReady? && c.up.now) || (c.up.UpWritten? && c.up.now) || c.up.UpDone?
  }

  ghost predicate ResetInv(a: Action, c: Connection) {
    && (!c.up.UpDone? ==> Sent(c) == c.seen)
    && (c.up.UpReady? && c.up.now ==> c.m.armed) && (c.up.UpWritten? && c.up.now ==> c.m.armed)
    && (a == ResetAfterTrigger && c.m.armed ==> LastChunk(c))
    && (c.down.DownHolding? ==> c.down.buf != [])
    && (c.resets == 0 || (c.resets == 1 && c.closed && c.m.armed && ResetBy(a, c)))
  }

  /** Where the pump that resets leaves the connection. */
  ghost predicate ResetBy(a: Action, c: Connection) {
    match a
    case ResetAfterTrigger => c.up.UpDone? && c.received + c.toUpstream == c.seen
    case DropServerResponseOnce => c.down.DownDone? && c.dropped > 0
    case BlackholeAfterTrigger => false
  }

  lemma UpKeepsResetInv(t: Bytes, a: Action, c: Connection, e: Event)
    requires t != [] && ResetInv(a, c) && (e.ClientSends? || e.Forward? || e.ForwardFails? || e.AfterForward? || e.ClientEnds?)
    ensures ResetInv(a, Next(t, a, c, e))
  {
    var c' := Next(t, a, c, e);
    if e.ClientSends? && c' != c && !c.m.armed {
      assert Sent(c) == c.received + c.toUpstream;
    } else if e.Forward? && c' != c {
      assert Sent(c') == Sent(c);
    } else if e.AfterForward? && c' != c {
      assert Sent(c) == c.received + c.toUpstream;
    }
  }

  lemma NetworkKeepsResetInv(t: Bytes, a: Action, c: Connection, e: Event)
    requires t != [] && ResetInv(a, c) && !(e.ClientSends? || e.Forward? || e.ForwardFails? || e.AfterForward? || e.ClientEnds?)
    ensures ResetInv(a, Next(t, a, c, e))
  {
    var c' := Next(t, a, c, e);
    if e.UpstreamReceives? && e.n <= |c.toUpstream| {
      assert c'.received + c'.toUpstream == c.received + c.toUpstream;
    }
  }

  lemma {:induction false} ExecKeepsResetInv(t: Bytes, a: Action, c: Connection, events: seq<Event>)
    requires t != [] && ResetInv(a, c)
    ensures ResetInv(a, Exec(t, a, c, events))
    decreases |events|
  {
    if events != [] {
      var e := events[0];
      if e.ClientSends? || e.Forward? || e.ForwardFails? || e.AfterForward? || e.ClientEnds? {
        UpKeepsResetInv(t, a, c, e);
      } else {
        NetworkKeepsResetInv(t, a, c, e);
      }
      ExecKeepsResetInv(t, a, Next(t, a, c, e), events[1..]);
    }
  }

  /** However a connection ends, it is reset once at most and only after the trigger: in
      reset mode when the complete trigger has gone out to the upstream, in dropping mode
      when an answer was dropped, in blackhole mode never. */
  lemma ResetsOnce(t: Bytes, a: Action, events: seq<Event>)
    requires t != []
    ensures var c := Exec(t, a, FRESH, events);
            && c.resets <= 1
            && (c.resets == 1 ==>
                  && c.closed && Occurs(t, c.seen) && a != BlackholeAfterTrigger
                  && (a == ResetAfterTrigger ==> Occurs(t, c.received + c.toUpstream))
                  && (a == DropServerResponseOnce ==> c.dropped > 0))
  {
    FreshInv(t, a);
    NoLateAnswer(t, a, FRESH, events);
    ExecKeepsResetInv(t, a, FRESH, events);
  }

  /** In reset mode the client pump takes nothing after the chunk that completed the trigger. */
  lemma {:induction false} NothingAfterTrigger(t: Bytes, c: Connection, events: seq<Event>)
    requires t != [] && ResetInv(ResetAfterTrigger, c) && c.m.armed
    ensures Exec(t, ResetAfterTrigger, c, events).seen == c.seen
    decreases |events|
  {
    if events != [] {
      var c' := Next(t, ResetAfterTrigger, c, events[0]);
      ExecKeepsResetInv(t, ResetAfterTrigger, c, [events[0]]);
      ExecOne(t, ResetAfterTrigger, c, events[0]);
      NothingAfterTrigger(t, c', events[1..]);
    }
  }

  /** In reset mode the connection is closed only after the chunk has been written, so
      a quick answer gets through. */
  function QuickAnswer(t: Bytes): seq<Event> {
    [ClientSends(t), Forward] + ([UpstreamReceives(|t|)] + ([UpstreamSends([0]), ReadAnswer(1)] + [Decide, Deliver]))
  }

  lemma TriggerReachesUpstream(t: Bytes)
    requires t != []
    ensures var c1 := Next(t, ResetAfterTrigger, FRESH, ClientSends(t));
            var c2 := Next(t, ResetAfterTrigger, c1, Forward);
            var c3 := Next(t, ResetAfterTrigger, c2, UpstreamReceives(|t|));
            && c3.m.armed && c3.received == t && Occurs(t, t)
            && c3.wire == [] && c3.delivered == [] && c3.down == DownIdle && !c3.closed
  {
    assert OccursAt(t, t, 0);
    assert [] + t == t;
    ContainsIsOccurs(t, t);
    var c1 := Next(t, ResetAfterTrigger, FRESH, ClientSends(t));
    assert c1.up == UpReady(t, true);
  }

  lemma AnswerReachesClient(t: Bytes, c: Connection)
    requires t != [] && Occurs(t, c.received)
    requires c.wire == [] && c.delivered == [] && c.down == DownIdle && !c.closed
    ensures var c4 := Next(t, ResetAfterTrigger, c, UpstreamSends([0]));
            var c5 := Next(t, ResetAfterTrigger, c4, ReadAnswer(1));
            var c6 := Next(t, ResetAfterTrigger, c5, Decide);
            Next(t, ResetAfterTrigger, c6, Deliver).delivered == [Answer(0, true)]
  {
    var c4 := Next(t, ResetAfterTrigger, c, UpstreamSends([0]));
    assert c4.wire == [Answer(0, true)];
  }

  lemma {:induction false} ExecConcat(t: Bytes, a: Action, c: Connection, x: seq<Event>, y: seq<Event>)
    requires t != []
    ensures Exec(t, a, c, x + y) == Exec(t, a, Exec(t, a, c, x), y)
    decreases |x|
  {
    if x == [] {
      assert x + y == y;
    } else {
      assert (x + y)[1..] == x[1..] + y;
      ExecConcat(t, a, Next(t, a, c, x[0]), x[1..], y);
    }
  }

  lemma ExecOne(t: Bytes, a: Action, c: Connection, e: Event)
    requires t != []
    ensures Exec(t, a, c, [e]) == Next(t, a, c, e)
  {
    assert [e][1..] == [];
  }

  lemma ExecTwo(t: Bytes, a: Action, c: Connection, x: Event, y: Event)
    requires t != []
    ensures Exec(t, a, c, [x, y]) == Next(t, a, Next(t, a, c, x), y)
  {
    assert [x, y] == [x] + [y];
    ExecConcat(t, a, c, [x], [y]);
    ExecOne(t, a, c, x);
    ExecOne(t, a, Next(t, a, c, x), y);
  }

  lemma QuickAnswerArrives(t: Bytes)
    requires t != []
    ensures Exec(t, ResetAfterTrigger, FRESH, QuickAnswer(t)).delivered == [Answer(0, true)]
  {
    var a := ResetAfterTrigger;
    var c3 := Next(t, a, Next(t, a, Next(t, a, FRESH, ClientSends(t)), Forward), UpstreamReceives(|t|));
    TriggerReachesUpstream(t);
    AnswerReachesClient(t, c3);
    ExecConcat(t, a, FRESH, [ClientSends(t), Forward], [UpstreamReceives(|t|)] + ([UpstreamSends([0]), ReadAnswer(1)] + [Decide, Deliver]));
    ExecTwo(t, a, FRESH, ClientSends(t), Forward);
    var c2 := Next(t, a, Next(t, a, FRESH, ClientSends(t)), Forward);
    ExecConcat(t, a, c2, [UpstreamReceives(|t|)], [UpstreamSends([0]), ReadAnswer(1)] + [Decide, Deliver]);
    ExecOne(t, a, c2, UpstreamReceives(|t|));
    ExecConcat(t, a, c3, [UpstreamSends([0]), ReadAnswer(1)], [Decide, Deliver]);
    ExecTwo(t, a, c3, UpstreamSends([0]), ReadAnswer(1));
    ExecTwo(t, a, Next(t, a, Next(t, a, c3, UpstreamSends([0])), ReadAnswer(1)), Decide, Deliver);
  }

  /** Exactly the two dropping modes keep late answers from the client, for every trigger. */
  lemma DroppingModesAreTight(t: Bytes, a: Action)
    requires t != []
    ensures (forall events :: NoneAfter(Exec(t, a, FRESH, events).delivered)) <==> a != ResetAfterTrigger
  {
    FreshInv(t, a);
    if a != ResetAfterTrigger {
      forall events ensures NoneAfter(Exec(t, a, FRESH, events).delivered) {
        NoLateAnswer(t, a, FRESH, events);
      }
    } else {
      QuickAnswerArrives(t);
      assert !NoneAfter([Answer(0, true)]) by { assert [Answer(0, true)][0].after; }
    }
  }
}
