/** What the fault proxy does apart from its fault: it passes bytes on, in order and without
    loss, and accounts for every byte that it drops. */
module Transparency {
  import opened FaultProxy

  function Plain(s: seq<Answer>): Bytes {
    seq(|s|, i requires 0 <= i < |s| => s[i].byte)
  }

  lemma PlainConcat(a: seq<Answer>, b: seq<Answer>)
    ensures Plain(a + b) == Plain(a) + Plain(b)
  {
  }

  lemma PlainMark(bytes: Bytes, after: bool)
    ensures Plain(Mark(bytes, after)) == bytes
  {
  }

  /** What the server pump holds and will write, and what it has not yet decided about. */
  function Writing(c: Connection): seq<Answer> {
    if c.down.DownWriting? then c.down.buf else []
  }

  function Undecided(c: Connection): seq<Answer> {
    (if c.down.DownHolding? then c.down.buf else []) + c.wire
  }

  // ----- what was said on either side

  /** The chunks that the client pump has read, joined. */
  ghost function Read(t: Bytes, a: Action, c: Connection, events: seq<Event>): Bytes
    requires t != []
    decreases |events|
  {
    if events == [] then []
    else ReadBy(c, events[0]) + Read(t, a, Next(t, a, c, events[0]), events[1..])
  }

  function ReadBy(c: Connection, e: Event): Bytes {
    if e.ClientSends? && c.up.UpIdle? && !c.closed then e.chunk else []
  }

  /** What the upstream has sent. */
  ghost function Said(events: seq<Event>): Bytes {
    if events == [] then [] else SaidBy(events[0]) + Said(events[1..])
  }

  function SaidBy(e: Event): Bytes {
    if e.UpstreamSends? then e.bytes else []
  }

  // ----- the upstream's answers

  /** Before its fault the proxy has dropped no answer; afterwards it delivers nothing that it
      has not decided about, except in reset mode. What it delivers is the front of what the
      upstream said. */
  ghost predicate DownInv(a: Action, c: Connection, said: Bytes) {
    && Plain(c.delivered) + Plain(Writing(c)) <= said
    && ((!c.m.armed || a == ResetAfterTrigger) && !c.down.DownDone? ==>
          Plain(c.delivered) + Plain(Writing(c)) + Plain(Undecided(c)) == said)
  }

  lemma PrefixGrows(p: Bytes, s: Bytes, more: Bytes)
    requires p <= s
    ensures p <= s + more
  {
  }

  lemma DownNext(t: Bytes, a: Action, c: Connection, e: Event, said: Bytes)
    requires t != [] && DownInv(a, c, said)
    ensures DownInv(a, Next(t, a, c, e), said + SaidBy(e))
  {
    var c' := Next(t, a, c, e);
    match e
    case UpstreamSends(bytes) => SendsKeepsDown(t, a, c, bytes, said);
    case ReadAnswer(n) => ReadsKeepsDown(t, a, c, n, said);
    case Decide => DecideKeepsDown(t, a, c, said);
    case Deliver => DeliverKeepsDown(t, a, c, e, said);
    case DeliverFails(_) => DeliverKeepsDown(t, a, c, e, said);
    case _ =>
      assert said + SaidBy(e) == said;
  }

  lemma SendsKeepsDown(t: Bytes, a: Action, c: Connection, bytes: Bytes, said: Bytes)
    requires t != [] && DownInv(a, c, said)
    ensures DownInv(a, Next(t, a, c, UpstreamSends(bytes)), said + bytes)
  {
    var c' := Next(t, a, c, UpstreamSends(bytes));
    var marked := Mark(bytes, Occurs(t, c.received));
    PrefixGrows(Plain(c.delivered) + Plain(Writing(c)), said, bytes);
    PlainMark(bytes, Occurs(t, c.received));
    PlainConcat(Undecided(c), marked);
    assert Undecided(c') == Undecided(c) + marked;
    Regroup(Plain(c.delivered) + Plain(Writing(c)), Plain(Undecided(c)), bytes);
  }

  lemma Regroup(x: Bytes, y: Bytes, z: Bytes)
    ensures x + y + z == x + (y + z)
  {
  }

  lemma ReadsKeepsDown(t: Bytes, a: Action, c: Connection, n: nat, said: Bytes)
    requires t != [] && DownInv(a, c, said)
    ensures DownInv(a, Next(t, a, c, ReadAnswer(n)), said)
  {
    var c' := Next(t, a, c, ReadAnswer(n));
    if c' != c {
      assert Undecided(c') == c.wire[..n] + c.wire[n..] == c.wire == Undecided(c);
    }
  }

  lemma DecideKeepsDown(t: Bytes, a: Action, c: Connection, said: Bytes)
    requires t != [] && DownInv(a, c, said)
    ensures DownInv(a, Next(t, a, c, Decide), said)
  {
    if c.down.DownHolding? && !(c.m.armed && a != ResetAfterTrigger) {
      var c' := Next(t, a, c, Decide);
      PlainConcat(c.down.buf, c.wire);
      assert Plain(Writing(c)) == [] && Undecided(c') == c.wire;
      Regroup(Plain(c.delivered), Plain(c.down.buf), Plain(c.wire));
      assert Plain(c.delivered) + [] == Plain(c.delivered);
      if !c.down.DownDone? {
        Fronts(Plain(c.delivered) + Plain(c.down.buf), Plain(c.wire), said);
      }
    }
  }

  lemma Fronts(x: Bytes, y: Bytes, said: Bytes)
    requires x + y == said
    ensures x <= said
  {
  }

  lemma DeliverKeepsDown(t: Bytes, a: Action, c: Connection, e: Event, said: Bytes)
    requires t != [] && DownInv(a, c, said) && (e.Deliver? || e.DeliverFails?)
    ensures DownInv(a, Next(t, a, c, e), said)
  {
    var c' := Next(t, a, c, e);
    if c' != c {
      var buf := c.down.buf;
      var n := if e.Deliver? then |buf| else e.n;
      assert buf == buf[..n] + buf[n..];
      PlainConcat(c.delivered, buf[..n]);
      PlainConcat(buf[..n], buf[n..]);
      Regroup(Plain(c.delivered), Plain(buf[..n]), Plain(buf[n..]));
      assert buf[..|buf|] == buf;
      assert Plain(c'.delivered) + [] == Plain(c'.delivered);
      Fronts(Plain(c.delivered) + Plain(buf[..n]), Plain(buf[n..]), Plain(c.delivered) + Plain(buf));
      Shorter(Plain(c'.delivered), Plain(c.delivered) + Plain(buf), said);
    }
  }

  lemma Shorter(x: Bytes, y: Bytes, z: Bytes)
    requires x <= y <= z
    ensures x <= z
  {
  }

  lemma {:induction false} DownRuns(t: Bytes, a: Action, c: Connection, events: seq<Event>, said: Bytes)
    requires t != [] && DownInv(a, c, said)
    ensures DownInv(a, Exec(t, a, c, events), said + Said(events))
    decreases |events|
  {
    if events == [] {
      assert said + [] == said;
    } else {
      DownNext(t, a, c, events[0], said);
      DownRuns(t, a, Next(t, a, c, events[0]), events[1..], said + SaidBy(events[0]));
      Regroup(said, SaidBy(events[0]), Said(events[1..]));
    }
  }

  /** In every mode and under every interleaving the client gets the front of what the upstream
      said: nothing is changed, repeated, reordered or left out in between. Until the trigger
      (and in reset mode also after it) everything that was said has been delivered or is on
      its way, unless the client's side has gone. */
  lemma AnswersPassInOrder(t: Bytes, a: Action, events: seq<Event>)
    requires t != []
    ensures var c := Exec(t, a, FRESH, events);
            && Plain(c.delivered) <= Said(events)
            && ((!Occurs(t, c.seen) || a == ResetAfterTrigger) && !c.down.DownDone? ==>
                  Plain(c.delivered) + Plain(Writing(c)) + Plain(Undecided(c)) == Said(events))
  {
    var c := Exec(t, a, FRESH, events);
    DownRuns(t, a, FRESH, events, []);
    assert [] + Said(events) == Said(events);
    FreshInv(t, a);
    NoLateAnswer(t, a, FRESH, events);
    Fronts(Plain(c.delivered), Plain(Writing(c)), Plain(c.delivered) + Plain(Writing(c)));
    Shorter(Plain(c.delivered), Plain(c.delivered) + Plain(Writing(c)), Said(events));
  }

  /** Whatever waits for an idle server pump is delivered by its next round, before the trigger
      in every mode and in reset mode at any time. */
  lemma WaitingAnswersAreDelivered(t: Bytes, a: Action, c: Connection)
    requires t != [] && c.down.DownIdle? && !c.closed && c.wire != []
    requires !c.m.armed || a == ResetAfterTrigger
    ensures var c' := Next(t, a, Next(t, a, Next(t, a, c, ReadAnswer(|c.wire|)), Decide), Deliver);
            c' == c.(delivered := c.delivered + c.wire, wire := [])
  {
    assert c.wire[..|c.wire|] == c.wire && c.wire[|c.wire|..] == [];
  }

  /** The fault itself: an answer that is read once the trigger has been seen is dropped, and
      the connection reset or kept open as the mode says. */
  lemma LateAnswersAreDropped(t: Bytes, a: Action, c: Connection)
    requires t != [] && c.m.armed && c.down.DownHolding?
    ensures a == DropServerResponseOnce ==>
              Next(t, a, c, Decide) == c.(dropped := c.dropped + |c.down.buf|, resets := c.resets + 1, closed := true, down := DownDone)
    ensures a == BlackholeAfterTrigger ==> Next(t, a, c, Decide) == c.(dropped := c.dropped + |c.down.buf|, down := DownIdle)
  {
  }

  /** The other faults: once the chunk that completed the trigger has gone out, reset mode
      resets the connection; in blackhole mode the client's bytes vanish, chunk by chunk. */
  lemma FaultOnTheClientSide(t: Bytes, c: Connection, chunk: Bytes)
    requires t != []
    ensures c.up == UpWritten(true) ==>
              Next(t, ResetAfterTrigger, c, AfterForward) == c.(resets := c.resets + 1, closed := true, up := UpDone)
    ensures c.m.armed && c.up.UpIdle? && !c.closed ==>
              Next(t, BlackholeAfterTrigger, c, ClientSends(chunk)) == c.(dropped := c.dropped + |chunk|)
  {
  }

  /** How a connection ends without a fault: a side that has nothing more to say ends its pump,
      and the handler closes both ends when a pump has ended or the proxy stops. */
  lemma ConnectionsEnd(t: Bytes, a: Action, c: Connection)
    requires t != []
    ensures c.up.UpIdle? ==> Next(t, a, c, ClientEnds) == c.(up := UpDone)
    ensures c.down.DownIdle? ==> Next(t, a, c, ServerEnds) == c.(down := DownDone)
    ensures c.up.UpDone? || c.down.DownDone? ==> Next(t, a, c, PumpEnded) == c.(closed := true)
    ensures Next(t, a, c, Cancelled) == c.(closed := true)
  {
  }

  // ----- the client's requests

  /** Nothing that the client pump has read is lost on the way to the upstream, except in
      blackhole mode after the trigger, or when its end of the connection fails. */
  ghost predicate UpInv(a: Action, c: Connection, read: Bytes) {
    && Sent(c) <= c.seen <= read
    && (!c.up.UpDone? ==> Sent(c) == c.seen)
    && (!c.m.armed || a != BlackholeAfterTrigger ==> c.seen == read)
  }

  lemma UpNext(t: Bytes, a: Action, c: Connection, e: Event, read: Bytes)
    requires t != [] && UpInv(a, c, read)
    ensures UpInv(a, Next(t, a, c, e), read + ReadBy(c, e))
  {
    var c' := Next(t, a, c, e);
    match e
    case ClientSends(chunk) => ClientKeepsUp(t, a, c, chunk, read);
    case Forward =>
      assert Sent(c') == Sent(c) && read + [] == read;
    case ForwardFails(n) => FailureKeepsUp(t, a, c, n, read);
    case UpstreamReceives(n) =>
      assert read + [] == read;
      if n <= |c.toUpstream| {
        assert c'.received + c'.toUpstream == c.received + c.toUpstream;
      }
    case _ =>
      assert Sent(c') == Sent(c) && read + [] == read;
  }

  lemma FailureKeepsUp(t: Bytes, a: Action, c: Connection, n: nat, read: Bytes)
    requires t != [] && UpInv(a, c, read)
    ensures UpInv(a, Next(t, a, c, ForwardFails(n)), read + [])
  {
    var c' := Next(t, a, c, ForwardFails(n));
    assert read + [] == read;
    if c' != c {
      CutShort(c.received, c.toUpstream, c.up.chunk, n);
      Shorter(Sent(c'), Sent(c), c.seen);
    }
  }

  lemma CutShort(x: Bytes, y: Bytes, z: Bytes, n: nat)
    requires n <= |z|
    ensures x + (y + z[..n]) + [] <= x + y + z
  {
    assert x + y + z == x + (y + z[..n]) + [] + z[n..];
  }

  lemma ClientKeepsUp(t: Bytes, a: Action, c: Connection, chunk: Bytes, read: Bytes)
    requires t != [] && UpInv(a, c, read)
    ensures UpInv(a, Next(t, a, c, ClientSends(chunk)), read + ReadBy(c, ClientSends(chunk)))
  {
    var c' := Next(t, a, c, ClientSends(chunk));
    if c.up.UpIdle? && !c.closed {
      PrefixGrows(c.seen, read, chunk);
      if chunk == [] {
        assert read + [] == read;
      } else if !(c.m.armed && a == BlackholeAfterTrigger) {
        assert Sent(c) == c.received + c.toUpstream;
        assert c.seen == read;
      }
    } else {
      assert read + [] == read;
    }
  }

  lemma {:induction false} UpRuns(t: Bytes, a: Action, c: Connection, events: seq<Event>, read: Bytes)
    requires t != [] && UpInv(a, c, read)
    ensures UpInv(a, Exec(t, a, c, events), read + Read(t, a, c, events))
    decreases |events|
  {
    if events == [] {
      assert read + [] == read;
    } else {
      var c' := Next(t, a, c, events[0]);
      UpNext(t, a, c, events[0], read);
      UpRuns(t, a, c', events[1..], read + ReadBy(c, events[0]));
      Regroup(read, ReadBy(c, events[0]), Read(t, a, c', events[1..]));
    }
  }

  /** In every mode the upstream gets the front of what the client sent; until the trigger, and
      in the other modes than blackhole also after it, everything that was read has been
      received or is on its way, unless the client's pump has ended. */
  lemma RequestsPassInOrder(t: Bytes, a: Action, events: seq<Event>)
    requires t != []
    ensures var c, read := Exec(t, a, FRESH, events), Read(t, a, FRESH, events);
            && c.received + c.toUpstream <= read && c.seen <= read
            && (!Occurs(t, c.seen) || a != BlackholeAfterTrigger ==> c.seen == read)
            && (!c.up.UpDone? ==> Sent(c) == c.seen)
  {
    var c, read := Exec(t, a, FRESH, events), Read(t, a, FRESH, events);
    UpRuns(t, a, FRESH, events, []);
    assert [] + read == read;
    FreshInv(t, a);
    NoLateAnswer(t, a, FRESH, events);
    Fronts(c.received + c.toUpstream, InHand(c), Sent(c));
    Shorter(c.received + c.toUpstream, Sent(c), c.seen);
    Shorter(c.received + c.toUpstream, c.seen, read);
  }

  // ----- every byte is accounted for

  /** Bytes of either side that were read and have been passed on, are on their way, or were
      dropped. A pump that has ended leaves bytes behind. */
  ghost predicate Accounted(c: Connection, read: int, said: int) {
    !c.down.DownDone? ==>
      read + said == |c.seen| + c.dropped + |c.delivered| + |Writing(c)| + |Undecided(c)|
  }

  lemma AccountedNext(t: Bytes, a: Action, c: Connection, e: Event, read: int, said: int)
    requires t != [] && Accounted(c, read, said)
    ensures Accounted(Next(t, a, c, e), read + |ReadBy(c, e)|, said + |SaidBy(e)|)
  {
  }

  lemma {:induction false} EveryByteIsAccountedFor(t: Bytes, a: Action, c: Connection, events: seq<Event>, read: int, said: int)
    requires t != [] && Accounted(c, read, said)
    ensures Accounted(Exec(t, a, c, events), read + |Read(t, a, c, events)|, said + |Said(events)|)
    decreases |events|
  {
    if events != [] {
      var c' := Next(t, a, c, events[0]);
      AccountedNext(t, a, c, events[0], read, said);
      EveryByteIsAccountedFor(t, a, c', events[1..], read + |ReadBy(c, events[0])|, said + |SaidBy(events[0])|);
    }
  }
}
