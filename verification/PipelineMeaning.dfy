/** What decides the size of the next batch, and how failures end a run, spelled out. */
module PipelineMeaning {
  import opened Wrappers
  import opened Keys
  import opened Reading
  import opened Pipeline

  // ----- batch sizes

  /** The size before adaption: the control plane's target if there is one, else the present
      size; within the limits of the worker, and no more than the control plane's cap. */
  ghost predicate Aims(c: Config, batchRows: int, k: Control, aim: int) {
    var wish := if k.targetBatchRows > 0 then k.targetBatchRows else batchRows;
    var within := if wish < c.min then c.min else if c.max < wish then c.max else wish;
    aim == if k.maxBatchRows > 0 && k.maxBatchRows < within then k.maxBatchRows else within
  }

  /** The next size: doubled after a quick full batch, halved after a slow one, otherwise what
      it was aimed at; only an adaptive worker that is given neither a target nor a warning
      changes it, and it always stays within the limits of the worker. */
  lemma NextSize(c: Config, batchRows: int, a: Ack, rows: int, requested: int, aim: int)
    requires Normal(c) && Aims(c, batchRows, a.control, aim)
    ensures var next, total := NextBatchRows(c, batchRows, a, rows, requested), a.readMS + a.writeMS;
            var adapts := c.adaptive && a.control.targetBatchRows <= 0 && a.control.level == Ordinary;
            var settled := if aim < c.min then c.min else aim;
            var quick := rows >= requested && 0 < total && total < 1500 && aim < c.max;
            var slow := !quick && total > 8000 && aim > c.min;
            && (!adapts ==> next == settled)
            && (adapts && quick ==> next == if 2 * aim > c.max then c.max else if 2 * aim < c.min then c.min else 2 * aim)
            && (adapts && slow ==> next == if aim / 2 < c.min then c.min else aim / 2)
            && (adapts && !quick && !slow ==> next == settled)
  {
  }

  /** A target within the limits that no cap forbids is taken as it is. */
  lemma TargetIsTaken(c: Config, batchRows: int, a: Ack, rows: int, requested: int)
    requires Normal(c) && c.min <= a.control.targetBatchRows <= c.max
    requires a.control.maxBatchRows <= 0 || a.control.targetBatchRows <= a.control.maxBatchRows
    ensures NextBatchRows(c, batchRows, a, rows, requested) == a.control.targetBatchRows
  {
  }

  /** Every batch is read with the size that is current when its read begins. */
  lemma ReadsCurrentSize(env: Env, r: Run)
    requires WellFormed(env) && Inv(env, r) && r.reader.Idle?
    ensures Step(env, r, Load) == r.(reader := Reading(r.batchRows))
  {
  }

  /** What a successful checkpoint does to the run: the batch's cursor is recorded, and the
      writer stops if it is told to, and otherwise goes on with the next size. */
  lemma CheckpointMeaning(env: Env, r: Run, ack: Ack)
    requires r.writer.Committing?
    ensures var r', b := Step(env, r, CommitAcks(ack)), r.writer.batch;
            && r'.committedCursor == b.cursor && r'.rowsRead == r.rowsRead
            && r'.reader == r.reader && r'.channel == r.channel && r'.cancelled == r.cancelled
            && (ack.control.stop ==> r'.writer == Returned(Finished(true)) && r'.batchRows == r.batchRows)
            && (!ack.control.stop ==>
                  && r'.writer == Pausing && Step(env, r', Resume).writer == Waiting
                  && r'.batchRows == NextBatchRows(env.cfg, r.batchRows, ack, |b.rows|, b.requested))
  {
  }

  // ----- the way of a batch

  /** A page that was read is handed over with its last key as cursor; the reader stops after
      a page that is not full, and at once after an empty one. */
  lemma HandOver(env: Env, r: Run, page: seq<Keyed<Transform.Row>>)
    requires r.reader.Reading? && r.reader.limit >= 0 && page == NextPage(env.table, r.bounds, r.readCursor, r.reader.limit)
    requires |r.channel| < env.cfg.buffer
    ensures page == [] ==> Step(env, r, ReadOk) == r.(reader := Exited)
    ensures page != [] ==>
              var b := Batch(page, page[|page| - 1].key, r.reader.limit);
              Step(env, Step(env, r, ReadOk), Send)
              == r.(readCursor := b.cursor, channel := r.channel + [Data(b)],
                    reader := if |page| < r.reader.limit then Exited else Idle)
  {
  }

  /** The writer takes the oldest batch, writes it, counts its rows and asks for the checkpoint. */
  lemma TakeAndWrite(env: Env, r: Run)
    requires r.writer.Waiting? && r.channel != [] && r.channel[0].Data? && Translates(env, r.channel[0].batch.rows)
    ensures var b := r.channel[0].batch;
            && Step(env, r, Take) == r.(writer := Writing(b), channel := r.channel[1..], issued := b.rows)
            && Step(env, Step(env, r, Take), WriteOk)
               == r.(writer := Committing(b), channel := r.channel[1..], issued := b.rows, rowsRead := r.rowsRead + |b.rows|)
  {
  }

  // ----- failures

  /** A failed write or checkpoint, a batch that cannot be translated, and a pause that is
      cancelled end the run with an error and leave its recorded cursor alone. */
  lemma FailuresEndTheRun(env: Env, r: Run)
    ensures r.writer.Pausing? && r.cancelled ==> Step(env, r, PauseCancelled) == r.(writer := Returned(Failed))
    ensures r.writer.Writing? ==> Step(env, r, WriteFails) == r.(writer := Returned(Failed))
    ensures r.writer.Committing? ==> Step(env, r, CommitFails) == r.(writer := Returned(Failed))
    ensures r.writer.Waiting? && r.channel != []
              && (r.channel[0].Failure? || !Translates(env, r.channel[0].batch.rows)) ==>
              Step(env, r, Take) == r.(writer := Returned(Failed), channel := r.channel[1..])
  {
  }

  /** A read has failed and the writer has not been told yet. */
  ghost predicate FailurePending(r: Run) {
    r.reader == Sending(Failure) || (r.channel != [] && r.channel[|r.channel| - 1] == Failure && r.reader.Exited?)
  }

  ghost predicate NotWell(r: Run) {
    || r.cancelled || (r.writer.Returned? && r.writer.outcome != Finished(false))
    || (FailurePending(r) && !r.writer.Returned?)
  }

  lemma StaysNotWell(env: Env, r: Run, e: Event)
    requires NotWell(r)
    ensures NotWell(Step(env, r, e))
  {
  }

  lemma {:induction false} NeverWell(env: Env, r: Run, events: seq<Event>)
    requires NotWell(r)
    ensures NotWell(Exec(env, r, events))
    decreases |events|
  {
    if events != [] {
      StaysNotWell(env, r, events[0]);
      NeverWell(env, Step(env, r, events[0]), events[1..]);
    }
  }

  /** After a failed read the run never reports that its chunk is complete, whatever happens
      then; it can only fail, stop as it was told to, or be cancelled. */
  lemma FailedReadIsNoEnd(env: Env, r: Run, events: seq<Event>)
    requires r.reader.Reading? && !r.writer.Returned?
    ensures var r' := Exec(env, Step(env, r, ReadFails), events);
            r'.writer == Returned(Finished(false)) ==> r'.cancelled
  {
    NeverWell(env, Step(env, r, ReadFails), events);
  }
}
