/** The pipeline as the program runs it: goroutine-local variables, one channel and the
    worker's closures, changed in place. Each method is one atomic stretch of the two
    goroutines and takes the run from one state of the machine in Pipeline to the next. */
module Runners {
  import opened Wrappers
  import opened Keys
  import opened Reading
  import Transform
  import P = Pipeline
  import W = Worker

  class Runner {
    const env: P.Env
    const bounds: Bounds
    ghost const startCursor: Key
    ghost const startRows: int

    // the reader goroutine and the cursor variables its hook closes over
    var reader: P.Reader
    var after: int
    var hasAfter: bool
    var keyCursor: Key

    // shared between the goroutines
    var batchRows: int
    var channel: seq<P.Item>
    var cancelled: bool

    // the main loop, its statistics and the committer's cursor
    var writer: P.Writer
    var images: seq<Transform.Row>
    var rowsRead: int
    var lastCommittedCursor: Key
    ghost var issued: seq<Keyed<Transform.Row>>

    /** The request cursor: keyset reads use the key tuple, range reads the last integer. */
    function Cursor(): Key
      reads this
    {
      if bounds.KeysetBounds? then keyCursor else if hasAfter then [after] else []
    }

    ghost function Abs(): P.Run
      reads this
    {
      P.Run(bounds, startCursor, startRows, batchRows, reader, Cursor(), channel,
            writer, rowsRead, lastCommittedCursor, cancelled, issued)
    }

    ghost predicate Valid()
      reads this
    {
      && P.WellFormed(env) && W.KeysFit(env, bounds)
      && (reader.Reading? ==> reader.limit > 0)
      && (writer.Writing? ==> Transform.RowImages(env.plan, P.Items(writer.batch.rows)) == Ok(images))
    }

    constructor (env: P.Env, bounds: Bounds, cursor: Key, rows: int)
      requires P.WellFormed(env) && W.KeysFit(env, bounds) && (bounds.RangeBounds? ==> |cursor| <= 1)
      ensures Valid() && this.env == env && Abs() == P.Start(env, bounds, cursor, rows)
    {
      this.env, this.bounds, startCursor, startRows := env, bounds, cursor, rows;
      reader, keyCursor := P.Idle, cursor;
      hasAfter := cursor != [];
      after := if cursor != [] then cursor[0] else 0;
      batchRows, channel, cancelled := env.cfg.initial, [], false;
      writer, images, rowsRead := P.Waiting, [], rows;
      lastCommittedCursor, issued := cursor, [];
    }

    method LoadLimit()
      requires Valid() && reader.Idle?
      modifies this`reader
      ensures Valid() && Abs() == P.Step(env, old(Abs()), P.Load)
    {
      var limit := batchRows;
      if limit < env.cfg.min {
        limit := env.cfg.min;
      } else if limit > env.cfg.max {
        limit := env.cfg.max;
      }
      reader := P.Reading(limit);
    }

    /** The connector answered with the next page. */
    method Receive(page: seq<Keyed<Transform.Row>>)
      requires Valid() && reader.Reading? && page == NextPage(env.table, bounds, Cursor(), reader.limit)
      modifies this`reader, this`after, this`hasAfter, this`keyCursor
      ensures Valid() && Abs() == P.Step(env, old(Abs()), P.ReadOk)
    {
      if page == [] {
        reader := P.Exited;
        return;
      }
      var last := page[|page| - 1].key;
      PageKeyFits(env, bounds, Cursor(), reader.limit);
      if bounds.KeysetBounds? {
        keyCursor := last;
      } else {
        after := last[0];
        hasAfter := true;
      }
      reader := P.Sending(P.Data(P.Batch(page, Cursor(), reader.limit)));
    }

    method ReadError()
      requires Valid() && reader.Reading?
      modifies this`reader
      ensures Valid() && Abs() == P.Step(env, old(Abs()), P.ReadFails)
    {
      reader := P.Sending(P.Failure);
    }

    method Send()
      requires Valid() && reader.Sending? && |channel| < env.cfg.buffer
      modifies this`reader, this`channel
      ensures Valid() && Abs() == P.Step(env, old(Abs()), P.Send)
    {
      var item := reader.item;
      channel := channel + [item];
      reader := P.Idle;
      if item.Failure? || |item.batch.rows| < item.batch.requested {
        reader := P.Exited;
      }
    }

    method GiveUpSending()
      requires Valid() && reader.Sending? && (cancelled || writer.Returned?)
      modifies this`reader
      ensures Valid() && Abs() == P.Step(env, old(Abs()), P.Abandon)
    {
      reader := P.Exited;
    }

    /** Takes the next item off the channel and transforms its rows; a closed and empty
        channel ends the loop. */
    method Take()
      requires Valid() && writer.Waiting? && (channel != [] || reader.Exited?)
      modifies this`channel, this`writer, this`images, this`issued
      ensures Valid() && Abs() == P.Step(env, old(Abs()), P.Take)
    {
      if channel == [] {
        writer := P.Returned(P.Finished(false));
        return;
      }
      var item := channel[0];
      channel := channel[1..];
      if item.Failure? {
        writer := P.Returned(P.Failed);
        return;
      }
      var out := Transform.TransformRows(env.plan, P.Items(item.batch.rows));
      if out.Err? {
        writer := P.Returned(P.Failed);
        return;
      }
      images, issued := out.value, item.batch.rows;
      writer := P.Writing(item.batch);
    }

    /** The sink upserts the images by target key; what it then holds is what the machine
        says of the source rows. */
    method Write(target: W.Target) returns (written: W.Target)
      requires Valid() && writer.Writing?
      modifies this`writer, this`rowsRead
      ensures Valid() && Abs() == P.Step(env, old(Abs()), P.WriteOk)
      ensures written == W.UpsertAll(env, target, old(writer.batch).rows)
    {
      var b := writer.batch;
      written := target;
      Transform.RowImagesPointwise(env.plan, P.Items(b.rows));
      P.ItemsLength(b.rows);
      for i := 0 to |images|
        invariant W.UpsertAll(env, written, b.rows[i..]) == W.UpsertAll(env, target, b.rows)
      {
        assert b.rows[i..][1..] == b.rows[i + 1..];
        assert P.Image(env, b.rows[i]) == Ok(images[i]);
        written := written[W.TargetKey(env, images[i]) := images[i]];
      }
      rowsRead := rowsRead + |b.rows|;
      writer := P.Committing(b);
    }

    method WriteError()
      requires Valid() && writer.Writing?
      modifies this`writer
      ensures Valid() && Abs() == P.Step(env, old(Abs()), P.WriteFails)
    {
      writer := P.Returned(P.Failed);
    }

    method CommitError()
      requires Valid() && writer.Committing?
      modifies this`writer
      ensures Valid() && Abs() == P.Step(env, old(Abs()), P.CommitFails)
    {
      writer := P.Returned(P.Failed);
    }

    /** The checkpoint was acknowledged: remember its cursor, obey the control message
        and adapt the batch size. */
    method CommitAcknowledged(ack: P.Ack)
      requires Valid() && writer.Committing?
      modifies this`writer, this`lastCommittedCursor, this`batchRows
      ensures Valid() && Abs() == P.Step(env, old(Abs()), P.CommitAcks(ack))
    {
      var b, control := writer.batch, ack.control;
      lastCommittedCursor := b.cursor;
      if control.stop {
        writer := P.Returned(P.Finished(true));
        return;
      }
      var current := P.Clamp(batchRows, env.cfg.min, env.cfg.max);
      if control.targetBatchRows > 0 {
        current := P.Clamp(control.targetBatchRows, env.cfg.min, env.cfg.max);
      }
      if control.maxBatchRows > 0 && current > control.maxBatchRows {
        current := control.maxBatchRows;
      }
      var backpressured := control.level == P.Warn || control.level == P.Critical;
      if env.cfg.adaptive && control.targetBatchRows <= 0 && !backpressured {
        var totalMS := ack.readMS + ack.writeMS;
        if |b.rows| >= b.requested && totalMS > 0 && totalMS < 1500 && current < env.cfg.max {
          current := current * 2;
        } else if totalMS > 8000 && current > env.cfg.min {
          current := P.Half(current);
        }
      }
      batchRows := P.Clamp(current, env.cfg.min, env.cfg.max);
      writer := P.Pausing;
    }

    method PauseOver()
      requires Valid() && writer.Pausing?
      modifies this`writer
      ensures Valid() && Abs() == P.Step(env, old(Abs()), P.Resume)
    {
      writer := P.Waiting;
    }

    method PauseInterrupted()
      requires Valid() && writer.Pausing? && cancelled
      modifies this`writer
      ensures Valid() && Abs() == P.Step(env, old(Abs()), P.PauseCancelled)
    {
      writer := P.Returned(P.Failed);
    }

    method CancelParent()
      requires Valid()
      modifies this`cancelled
      ensures Valid() && Abs() == P.Step(env, old(Abs()), P.CancelParent)
    {
      cancelled := true;
    }

    /** One turn of whichever goroutine is scheduled next. */
    method Advance(e: P.Event, target: W.Target) returns (written: W.Target)
      requires Valid()
      modifies this
      ensures Valid() && Abs() == P.Step(env, old(Abs()), e)
      ensures written == Next(env, old(Abs()), e, target)
    {
      written := target;
      match e
      case Load =>
        if reader.Idle? { LoadLimit(); }
      case ReadOk =>
        if reader.Reading? { Receive(NextPage(env.table, bounds, Cursor(), reader.limit)); }
      case ReadFails =>
        if reader.Reading? { ReadError(); }
      case Send =>
        if reader.Sending? && |channel| < env.cfg.buffer { Send(); }
      case Abandon =>
        if reader.Sending? && (cancelled || writer.Returned?) { GiveUpSending(); }
      case Take =>
        if writer.Waiting? && (channel != [] || reader.Exited?) { Take(); }
      case WriteOk =>
        if writer.Writing? { written := Write(target); }
      case WriteFails =>
        if writer.Writing? { WriteError(); }
      case CommitFails =>
        if writer.Committing? { CommitError(); }
      case CommitAcks(ack) =>
        if writer.Committing? { CommitAcknowledged(ack); }
      case Resume =>
        if writer.Pausing? { PauseOver(); }
      case PauseCancelled =>
        if writer.Pausing? && cancelled { PauseInterrupted(); }
      case CancelParent => CancelParent();
    }

    /** A run under any schedule: it follows the machine; at every point the rows counted
        as read are the first rows of the chunk and their images, upserted in order, are
        what it has written; and if it ends in success without a stop request or
        cancellation, that is the whole chunk. */
    method Run(events: seq<P.Event>, target: W.Target) returns (written: W.Target)
      requires Valid() && Abs() == P.Start(env, bounds, startCursor, startRows)
      modifies this
      ensures Valid() && Abs() == P.Exec(env, old(Abs()), events)
      ensures Delivered(env, Select(env.table, bounds, startCursor), rowsRead - startRows, target, written)
      ensures writer == P.Returned(P.Finished(false)) && !cancelled ==>
                && Select(env.table, bounds, lastCommittedCursor) == []
                && rowsRead == startRows + |Select(env.table, bounds, startCursor)|
                && written == W.UpsertAll(env, target, Select(env.table, bounds, startCursor))
    {
      ghost var start := Abs();
      written := target;
      StartsOnSchedule(env, start, events, target);
      for i := 0 to |events|
        invariant Valid() && OnSchedule(env, start, events, i, Abs(), target, written)
      {
        StaysOnSchedule(env, start, events, i, Abs(), target, written);
        written := Advance(events[i], written);
      }
      EndsOnSchedule(env, start, events, Abs(), target, written);
      RunDelivers(env, bounds, startCursor, startRows, events, target);
    }
  }

  /** The target after one event, and after a schedule. */
  function Next(env: P.Env, r: P.Run, e: P.Event, written: W.Target): W.Target {
    if e.WriteOk? && r.writer.Writing? then W.UpsertAll(env, written, r.writer.batch.rows) else written
  }

  function Sent(env: P.Env, r: P.Run, events: seq<P.Event>, written: W.Target): W.Target
    decreases |events|
  {
    if events == [] then written else Sent(env, P.Step(env, r, events[0]), events[1..], Next(env, r, events[0], written))
  }

  /** What is left of the schedule leads from here to where the whole of it leads from the start. */
  ghost predicate OnSchedule(env: P.Env, start: P.Run, events: seq<P.Event>, i: nat, r: P.Run, target: W.Target, written: W.Target) {
    && i <= |events|
    && P.Exec(env, r, events[i..]) == P.Exec(env, start, events)
    && Sent(env, r, events[i..], written) == Sent(env, start, events, target)
  }

  lemma StartsOnSchedule(env: P.Env, start: P.Run, events: seq<P.Event>, target: W.Target)
    ensures OnSchedule(env, start, events, 0, start, target, target)
  {
    assert events[0..] == events;
  }

  lemma StaysOnSchedule(env: P.Env, start: P.Run, events: seq<P.Event>, i: nat, r: P.Run, target: W.Target, written: W.Target)
    requires OnSchedule(env, start, events, i, r, target, written) && i < |events|
    ensures OnSchedule(env, start, events, i + 1, P.Step(env, r, events[i]), target, Next(env, r, events[i], written))
  {
    assert events[i..][1..] == events[i + 1..];
  }

  lemma EndsOnSchedule(env: P.Env, start: P.Run, events: seq<P.Event>, r: P.Run, target: W.Target, written: W.Target)
    requires OnSchedule(env, start, events, |events|, r, target, written)
    ensures r == P.Exec(env, start, events) && written == Sent(env, start, events, target)
  {
  }

  lemma {:induction false} SentIsDelivered(env: P.Env, r: P.Run, events: seq<P.Event>, target: W.Target, written: W.Target)
    requires P.WellFormed(env) && P.Inv(env, r)
    requires Delivered(env, P.Todo(env, r), r.rowsRead - r.startRows, target, written)
    ensures Delivered(env, P.Todo(env, r), P.Exec(env, r, events).rowsRead - r.startRows, target, Sent(env, r, events, written))
    decreases |events|
  {
    if events != [] {
      P.StepKeeps(env, r, events[0]);
      P.StepKeepsJob(env, r, events[0]);
      DeliveryContinues(env, r, events[0], target, written);
      SentIsDelivered(env, P.Step(env, r, events[0]), events[1..], target, Next(env, r, events[0], written));
    }
  }

  lemma RunDelivers(env: P.Env, bounds: Bounds, cursor: Key, rows: int, events: seq<P.Event>, target: W.Target)
    requires P.WellFormed(env)
    ensures var start, todo := P.Start(env, bounds, cursor, rows), Select(env.table, bounds, cursor);
            var r, written := P.Exec(env, start, events), Sent(env, start, events, target);
            && Delivered(env, todo, r.rowsRead - rows, target, written)
            && (r.writer == P.Returned(P.Finished(false)) && !r.cancelled ==>
                  && Select(env.table, bounds, r.committedCursor) == []
                  && r.rowsRead == rows + |todo|
                  && written == W.UpsertAll(env, target, todo))
  {
    var start, todo := P.Start(env, bounds, cursor, rows), Select(env.table, bounds, cursor);
    P.StartKeeps(env, bounds, cursor, rows);
    SentIsDelivered(env, start, events, target, target);
    P.NilMeansComplete(env, bounds, cursor, rows, events);
    assert todo[..|todo|] == todo;
  }

  /** The images of the first n rows, upserted in order. */
  ghost predicate Delivered(env: P.Env, todo: seq<Keyed<Transform.Row>>, n: int, target: W.Target, written: W.Target) {
    0 <= n <= |todo| && written == W.UpsertAll(env, target, todo[..n])
  }

  lemma {:induction false} UpsertAllConcat(env: P.Env, t: W.Target, a: seq<Keyed<Transform.Row>>, b: seq<Keyed<Transform.Row>>)
    ensures W.UpsertAll(env, t, a + b) == W.UpsertAll(env, W.UpsertAll(env, t, a), b)
    decreases |a|
  {
    if a == [] {
      assert a + b == b;
    } else {
      assert (a + b)[1..] == a[1..] + b;
      UpsertAllConcat(env, W.Upsert(env, t, a[0]), a[1..], b);
    }
  }

  /** The batch in the writer's hand is the next slice of the chunk. */
  lemma InHandIsNext(todo: seq<Keyed<Transform.Row>>, r: P.Run)
    requires P.Placed(todo, r, P.Pipe(r)) && r.writer.Writing?
    ensures var p, rows := r.rowsRead - r.startRows, r.writer.batch.rows;
            0 <= p && p + |rows| <= |todo| && rows == todo[p..p + |rows|]
  {
    P.InHandIsNext(todo, r);
  }

  lemma DeliveryContinues(env: P.Env, r: P.Run, e: P.Event, target: W.Target, written: W.Target)
    requires P.Inv(env, r) && Delivered(env, P.Todo(env, r), r.rowsRead - r.startRows, target, written)
    ensures Delivered(env, P.Todo(env, r), P.Step(env, r, e).rowsRead - r.startRows, target, Next(env, r, e, written))
  {
    if e.WriteOk? && r.writer.Writing? {
      var todo, p, rows := P.Todo(env, r), r.rowsRead - r.startRows, r.writer.batch.rows;
      InHandIsNext(todo, r);
      DeliverMore(env, todo, p, rows, target, written);
    } else {
      RowsReadStays(env, r, e);
    }
  }

  lemma FrontGrows(todo: seq<Keyed<Transform.Row>>, p: nat, rows: seq<Keyed<Transform.Row>>)
    requires p + |rows| <= |todo| && rows == todo[p..p + |rows|]
    ensures todo[..p + |rows|] == todo[..p] + rows
  {
  }

  lemma DeliverMore(env: P.Env, todo: seq<Keyed<Transform.Row>>, p: nat, rows: seq<Keyed<Transform.Row>>,
                    target: W.Target, written: W.Target)
    requires Delivered(env, todo, p, target, written)
    requires p + |rows| <= |todo| && rows == todo[p..p + |rows|]
    ensures Delivered(env, todo, p + |rows|, target, W.UpsertAll(env, written, rows))
  {
    FrontGrows(todo, p, rows);
    UpsertAllConcat(env, target, todo[..p], rows);
  }

  lemma RowsReadStays(env: P.Env, r: P.Run, e: P.Event)
    requires !(e.WriteOk? && r.writer.Writing?)
    ensures P.Step(env, r, e).rowsRead == r.rowsRead
  {
  }

  lemma PageKeyFits(env: P.Env, bounds: Bounds, cursor: Key, limit: nat)
    requires P.WellFormed(env) && W.KeysFit(env, bounds)
    ensures forall i | 0 <= i < |NextPage(env.table, bounds, cursor, limit)| ::
              var k := NextPage(env.table, bounds, cursor, limit)[i].key;
              k != [] && (bounds.RangeBounds? ==> k == [k[0]])
  {
    SelectMembers(env.table, bounds, cursor);
    var page := NextPage(env.table, bounds, cursor, limit);
    forall i | 0 <= i < |page|
      ensures page[i].key != [] && (bounds.RangeBounds? ==> page[i].key == [page[i].key[0]])
    {
      assert page[i] == Select(env.table, bounds, cursor)[i];
      assert page[i] in env.table;
    }
  }
}
