/** The batch limits the control plane puts into its answer to a checkpoint, and that the
    pipeline obeys them. Latency thresholds, pauses and the throughput target are inputs. */
module ControlPlane {
  import P = Pipeline

  datatype Reply = Reply(level: P.Level, maxBatchRows: int, targetBatchRows: int)

  /** What the worker reported with its checkpoint. */
  datatype Progress = Progress(lastBatchRows: int, readMS: int, writeMS: int)

  const MIN_CAP := 50

  function BatchOf(rows: int): int {
    if rows <= 0 then 500 else rows
  }

  function AtLeast(rows: int, floor: int): int {
    if rows < floor then floor else rows
  }

  function CriticalCap(rows: int): int {
    AtLeast(BatchOf(rows) / 2, MIN_CAP)
  }

  function WarnCap(rows: int): int {
    AtLeast(BatchOf(rows) * 3 / 4, 100)
  }

  /** The target is lowered to the cap, if there is one. */
  function Lowered(r: Reply): Reply {
    if r.maxBatchRows > 0 && (r.targetBatchRows <= 0 || r.targetBatchRows > r.maxBatchRows) then
      r.(targetBatchRows := r.maxBatchRows)
    else r
  }

  /** Pressure seen in the worker's own latencies and load. */
  function Backpressure(p: Progress, overloaded: bool, warnMS: int, criticalMS: int, target: int): Reply {
    var latency := if p.writeMS > p.readMS then p.writeMS else p.readMS;
    if latency >= criticalMS then Lowered(Reply(P.Critical, CriticalCap(p.lastBatchRows), target))
    else if latency >= warnMS || overloaded then Lowered(Reply(P.Warn, WarnCap(p.lastBatchRows), target))
    else Lowered(Reply(P.Ordinary, 0, target))
  }

  function Rank(level: P.Level): int {
    match level
    case Ordinary => 0
    case Warn => 1
    case Critical => 2
  }

  /** Pressure on the whole task replaces a lower one. */
  function Merge(r: Reply, taskLevel: P.Level, rows: int): Reply {
    if Rank(taskLevel) <= Rank(r.level) then r
    else r.(level := taskLevel, maxBatchRows := if taskLevel == P.Critical then CriticalCap(rows) else WarnCap(rows))
  }

  /** Pressure on the chunk's topology: a share of the task's batch size, or a pause. */
  function Topology(r: Reply, taskBatchRows: int, pct: int, pauseMS: int): Reply {
    if pct >= 100 && pauseMS <= 0 then r
    else
      var cap := AtLeast(BatchOf(taskBatchRows) * pct / 100, MIN_CAP);
      var capped := if r.maxBatchRows <= 0 || cap < r.maxBatchRows then r.(maxBatchRows := cap) else r;
      var lowered := Lowered(capped);
      if lowered.level == P.Ordinary then lowered.(level := P.Warn) else lowered
  }

  function Answer(p: Progress, overloaded: bool, warnMS: int, criticalMS: int, target: int, taskLevel: P.Level,
                  taskBatchRows: int, pct: int, pauseMS: int): Reply
  {
    Topology(Merge(Backpressure(p, overloaded, warnMS, criticalMS, target), taskLevel, p.lastBatchRows),
             taskBatchRows, pct, pauseMS)
  }

  /** An answer has a cap exactly if it signals pressure, and no cap is below 50 rows. */
  lemma CapsComeWithPressure(p: Progress, overloaded: bool, warnMS: int, criticalMS: int, target: int, taskLevel: P.Level,
                             taskBatchRows: int, pct: int, pauseMS: int)
    ensures var r := Answer(p, overloaded, warnMS, criticalMS, target, taskLevel, taskBatchRows, pct, pauseMS);
            && (r.maxBatchRows > 0 <==> r.level != P.Ordinary)
            && (r.maxBatchRows > 0 ==> r.maxBatchRows >= MIN_CAP)
  {
  }

  /** The worker's pipeline, whose smallest batch is 50 rows, obeys the cap of every answer,
      whatever its timings: pressure switches the adaptive doubling off. */
  lemma CapIsObeyed(c: P.Config, batchRows: int, p: Progress, overloaded: bool, warnMS: int, criticalMS: int, target: int,
                    taskLevel: P.Level, taskBatchRows: int, pct: int, pauseMS: int, stop: bool,
                    readMS: int, writeMS: int, rows: int, requested: int)
    requires P.Normal(c) && c.min <= MIN_CAP
    ensures var r := Answer(p, overloaded, warnMS, criticalMS, target, taskLevel, taskBatchRows, pct, pauseMS);
            var ack := P.Ack(P.Control(r.level, r.maxBatchRows, r.targetBatchRows, stop), readMS, writeMS);
            r.maxBatchRows > 0 ==> P.NextBatchRows(c, batchRows, ack, rows, requested) <= r.maxBatchRows
  {
    CapsComeWithPressure(p, overloaded, warnMS, criticalMS, target, taskLevel, taskBatchRows, pct, pauseMS);
    var r := Answer(p, overloaded, warnMS, criticalMS, target, taskLevel, taskBatchRows, pct, pauseMS);
    if r.maxBatchRows > 0 {
      P.CapExceededIff(c, batchRows, P.Ack(P.Control(r.level, r.maxBatchRows, r.targetBatchRows, stop), readMS, writeMS),
                       rows, requested);
    }
  }

  /** Before the topology is looked at: the worse of the worker's and the task's pressure. */
  lemma PressureMeaning(p: Progress, overloaded: bool, warnMS: int, criticalMS: int, target: int, taskLevel: P.Level, last: int)
    requires last == if p.lastBatchRows > 0 then p.lastBatchRows else 500
    ensures var r := Merge(Backpressure(p, overloaded, warnMS, criticalMS, target), taskLevel, p.lastBatchRows);
            var critical := p.readMS >= criticalMS || p.writeMS >= criticalMS || taskLevel == P.Critical;
            var warned := p.readMS >= warnMS || p.writeMS >= warnMS || overloaded || taskLevel == P.Warn;
            && r.level == (if critical then P.Critical else if warned then P.Warn else P.Ordinary)
            && r.maxBatchRows == (if critical then (if last / 2 < 50 then 50 else last / 2)
                                  else if warned then (if last * 3 / 4 < 100 then 100 else last * 3 / 4)
                                  else 0)
  {
  }

  lemma TopologyMeaning(r: Reply, taskBatchRows: int, pct: int, pauseMS: int, floor: int)
    requires var share := (if taskBatchRows > 0 then taskBatchRows else 500) * pct / 100; floor == if share < 50 then 50 else share
    requires r.maxBatchRows >= 0
    ensures var r' := Topology(r, taskBatchRows, pct, pauseMS);
            if pct < 100 || pauseMS > 0 then
              && r'.level == (if r.level == P.Ordinary then P.Warn else r.level)
              && r'.maxBatchRows == (if r.maxBatchRows > 0 && r.maxBatchRows < floor then r.maxBatchRows else floor)
              && r'.targetBatchRows == (if 0 < r.targetBatchRows <= r'.maxBatchRows then r.targetBatchRows else r'.maxBatchRows)
            else r' == r
  {
  }

  /** The answer, from the worker's latencies and the pressure on its task and its topology.
      The level is the worst that any of them asks for. The cap is at least half the last batch
      at a critical level (no less than 50 rows), three quarters of it at a warning (no less
      than 100), and the topology's share of the task's batch (no less than 50), whichever of
      these applies and is lowest. */
  lemma AnswerMeaning(p: Progress, overloaded: bool, warnMS: int, criticalMS: int, target: int, taskLevel: P.Level,
                      taskBatchRows: int, pct: int, pauseMS: int, last: int, floor: int)
    requires last == if p.lastBatchRows > 0 then p.lastBatchRows else 500
    requires var share := (if taskBatchRows > 0 then taskBatchRows else 500) * pct / 100; floor == if share < 50 then 50 else share
    ensures var r := Answer(p, overloaded, warnMS, criticalMS, target, taskLevel, taskBatchRows, pct, pauseMS);
            var critical := p.readMS >= criticalMS || p.writeMS >= criticalMS || taskLevel == P.Critical;
            var warned := p.readMS >= warnMS || p.writeMS >= warnMS || overloaded || taskLevel == P.Warn;
            var shared := pct < 100 || pauseMS > 0;
            var half, quarters := if last / 2 < 50 then 50 else last / 2, if last * 3 / 4 < 100 then 100 else last * 3 / 4;
            && r.level == (if critical then P.Critical else if warned || shared then P.Warn else P.Ordinary)
            && r.maxBatchRows == (if critical then (if shared && floor < half then floor else half)
                                  else if warned then (if shared && floor < quarters then floor else quarters)
                                  else if shared then floor else 0)
  {
    PressureMeaning(p, overloaded, warnMS, criticalMS, target, taskLevel, last);
    var r := Merge(Backpressure(p, overloaded, warnMS, criticalMS, target), taskLevel, p.lastBatchRows);
    TopologyMeaning(r, taskBatchRows, pct, pauseMS, floor);
  }

  /** A cap that the worker's own latencies ask for, like that of the topology, lowers the
      target that is passed on and stands in for a missing one; a cap from pressure on the
      whole task alone leaves the target as it is. */
  lemma TargetMeaning(p: Progress, overloaded: bool, warnMS: int, criticalMS: int, target: int, taskLevel: P.Level)
    ensures var own := Backpressure(p, overloaded, warnMS, criticalMS, target);
            && Merge(own, taskLevel, p.lastBatchRows).targetBatchRows == own.targetBatchRows
            && (own.maxBatchRows == 0 ==> own.targetBatchRows == target)
            && (own.maxBatchRows > 0 ==>
                  own.targetBatchRows == if 0 < target <= own.maxBatchRows then target else own.maxBatchRows)
  {
  }
}
