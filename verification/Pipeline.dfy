/** One run of the full-load pipeline: a prefetching reader and a writer joined by
    a bounded channel. Every source of nondeterminism (scheduling, read and write
    failures, commit answers, cancellation) is an Event; an event that is not
    enabled leaves the run unchanged. */
module Pipeline {
  import opened Wrappers
  import opened Keys
  import opened Reading
  import Transform

  // ----- configuration and batch sizing

  datatype Config = Config(initial: int, min: int, max: int, buffer: int, adaptive: bool)

  function Clamp(v: int, lo: int, hi: int): int {
    if v < lo then lo else if v > hi then hi else v
  }

  function Normalize(c: Config): Config {
    var initial := if c.initial <= 0 then 500 else c.initial;
    var min0 := if c.min <= 0 then 50 else c.min;
    var max := if c.max <= 0 then 5000 else c.max;
    var min := if min0 > max then max else min0;
    var initial1 := if initial < min then min else initial;
    var initial2 := if initial1 > max then max else initial1;
    var buffer0 := if c.buffer <= 0 then 2 else c.buffer;
    Config(initial2, min, max, if buffer0 > 32 then 32 else buffer0, c.adaptive)
  }

  ghost predicate Normal(c: Config) {
    1 <= c.min <= c.initial <= c.max && 1 <= c.buffer <= 32
  }

  /** Any configuration normalizes to a usable one, and a usable one is left alone. */
  lemma NormalizeIsProjection(c: Config)
    ensures Normal(Normalize(c))
    ensures Normal(c) <==> Normalize(c) == c
  {
  }

  /** A consistent wish is granted; a missing one gets its default, within the other limits. */
  lemma NormalizeGrants(c: Config)
    ensures var n := Normalize(c);
            && n.max == (if c.max > 0 then c.max else 5000)
            && (0 < c.min <= n.max ==> n.min == c.min) && (c.min <= 0 && n.max >= 50 ==> n.min == 50)
            && (n.min <= c.initial <= n.max && c.initial > 0 ==> n.initial == c.initial)
            && (c.initial <= 0 && n.min <= 500 <= n.max ==> n.initial == 500)
            && (1 <= c.buffer <= 32 ==> n.buffer == c.buffer) && (c.buffer <= 0 ==> n.buffer == 2)
  {
  }

  datatype Level = Ordinary | Warn | Critical

  datatype Control = Control(level: Level, maxBatchRows: int, targetBatchRows: int, stop: bool)

  /** A successful checkpoint answer together with the batch timings. */
  datatype Ack = Ack(control: Control, readMS: int, writeMS: int)

  /** Go's integer division, truncating toward zero. */
  function Half(n: int): int {
    if n >= 0 then n / 2 else -((-n) / 2)
  }

  /** The batch size before the adaptive step: the control plane's target, capped. */
  function Directed(c: Config, batchRows: int, k: Control): int {
    var kept := Clamp(batchRows, c.min, c.max);
    var aimed := if k.targetBatchRows > 0 then Clamp(k.targetBatchRows, c.min, c.max) else kept;
    if k.maxBatchRows > 0 && aimed > k.maxBatchRows then k.maxBatchRows else aimed
  }

  predicate Doubles(c: Config, batchRows: int, a: Ack, rows: int, requested: int) {
    var total := a.readMS + a.writeMS;
    && c.adaptive && a.control.targetBatchRows <= 0 && a.control.level == Ordinary
    && rows >= requested && 0 < total < 1500
    && Directed(c, batchRows, a.control) < c.max
  }

  function NextBatchRows(c: Config, batchRows: int, a: Ack, rows: int, requested: int): int {
    var k := a.control;
    var current := Directed(c, batchRows, k);
    var total := a.readMS + a.writeMS;
    var adapted :=
      if c.adaptive && k.targetBatchRows <= 0 && k.level == Ordinary then
        if rows >= requested && 0 < total < 1500 && current < c.max then current * 2
        else if total > 8000 && current > c.min then Half(current)
        else current
      else current;
    Clamp(adapted, c.min, c.max)
  }

  /** Exactly when the next batch exceeds a reply's row cap: the cap is below the configured
      minimum, or the adaptive doubling, which runs after the cap, lifts the size above it. */
  lemma CapExceededIff(c: Config, batchRows: int, a: Ack, rows: int, requested: int)
    requires Normal(c) && a.control.maxBatchRows > 0
    ensures var cap := a.control.maxBatchRows;
            NextBatchRows(c, batchRows, a, rows, requested) > cap
            <==> cap < c.min || (&& Doubles(c, batchRows, a, rows, requested)
                                 && cap < c.max && 2 * Directed(c, batchRows, a.control) > cap)
  {
  }

  // ----- the two goroutines

  /** What a run reads from and writes through: a table that does not change while
      it is copied, the compiled transform, and the target's key columns. */
  datatype Env = Env(table: seq<Keyed<Transform.Row>>, plan: Transform.Plan, targetPK: seq<nat>, cfg: Config)

  datatype Batch = Batch(rows: seq<Keyed<Transform.Row>>, cursor: Key, requested: int)

  datatype Item = Data(batch: Batch) | Failure

  datatype Reader = Idle | Reading(limit: int) | Sending(item: Item) | Exited

  datatype Outcome = Finished(stopped: bool) | Failed

  datatype Writer =
    | Waiting | Writing(batch: Batch) | Committing(batch: Batch) | Pausing | Returned(outcome: Outcome)

  /** `issued` holds the rows of the last write request: the sink may still apply
      any of them after the run gave up on the request. */
  datatype Run = Run(
    bounds: Bounds, startCursor: Key, startRows: int,
    batchRows: int, reader: Reader, readCursor: Key,
    channel: seq<Item>,
    writer: Writer, rowsRead: int, committedCursor: Key,
    cancelled: bool, issued: seq<Keyed<Transform.Row>>)

  datatype Event =
    | Load | ReadOk | ReadFails | Send | Abandon
    | Take | WriteOk | WriteFails
    | CommitFails | CommitAcks(ack: Ack) | Resume | PauseCancelled
    | CancelParent

  function Start(env: Env, bounds: Bounds, cursor: Key, rows: int): Run {
    Run(bounds, cursor, rows, env.cfg.initial, Idle, cursor, [], Waiting, rows, cursor, false, [])
  }

  function Items(rows: seq<Keyed<Transform.Row>>): seq<Transform.Row> {
    if rows == [] then [] else [rows[0].item] + Items(rows[1..])
  }

  function Image(env: Env, row: Keyed<Transform.Row>): Result<Transform.Row, Transform.Failure> {
    Transform.RowImage(env.plan, row.item)
  }

  predicate Translates(env: Env, rows: seq<Keyed<Transform.Row>>) {
    Transform.RowImages(env.plan, Items(rows)).Ok?
  }

  predicate Done(r: Run) {
    r.cancelled || r.writer.Returned?
  }

  /** The reader's local cursor advances as soon as a page has been read. */
  function AfterRead(r: Run, page: seq<Keyed<Transform.Row>>, limit: int): Run {
    if page == [] then r.(reader := Exited)
    else
      var last := page[|page| - 1].key;
      r.(reader := Sending(Data(Batch(page, last, limit))), readCursor := last)
  }

  function AfterSend(r: Run, item: Item): Run {
    var stop := item.Failure? || |item.batch.rows| < item.batch.requested;
    r.(channel := r.channel + [item], reader := if stop then Exited else Idle)
  }

  function AfterTake(r: Run, translates: bool): Run
    requires r.channel != []
  {
    var rest := r.(channel := r.channel[1..]);
    if r.channel[0].Data? && translates then
      rest.(writer := Writing(r.channel[0].batch), issued := r.channel[0].batch.rows)
    else rest.(writer := Returned(Failed))
  }

  function AfterAck(c: Config, r: Run, b: Batch, ack: Ack): Run {
    if ack.control.stop then r.(writer := Returned(Finished(true)), committedCursor := b.cursor)
    else r.(writer := Pausing, committedCursor := b.cursor,
            batchRows := NextBatchRows(c, r.batchRows, ack, |b.rows|, b.requested))
  }

  function Step(env: Env, r: Run, e: Event): Run {
    match e
    case Load =>
      if r.reader.Idle? then r.(reader := Reading(Clamp(r.batchRows, env.cfg.min, env.cfg.max))) else r
    case ReadOk =>
      if r.reader.Reading? && r.reader.limit >= 0 then
        AfterRead(r, NextPage(env.table, r.bounds, r.readCursor, r.reader.limit), r.reader.limit)
      else r
    case ReadFails =>
      if r.reader.Reading? then r.(reader := Sending(Failure)) else r
    case Send =>
      if r.reader.Sending? && |r.channel| < env.cfg.buffer then AfterSend(r, r.reader.item) else r
    case Abandon =>
      if r.reader.Sending? && Done(r) then r.(reader := Exited) else r
    case Take =>
      if !r.writer.Waiting? then r
      else if r.channel == [] then
        if r.reader.Exited? then r.(writer := Returned(Finished(false))) else r
      else AfterTake(r, r.channel[0].Data? && Translates(env, r.channel[0].batch.rows))
    case WriteOk =>
      if r.writer.Writing? then
        r.(writer := Committing(r.writer.batch), rowsRead := r.rowsRead + |r.writer.batch.rows|)
      else r
    case WriteFails =>
      if r.writer.Writing? then r.(writer := Returned(Failed)) else r
    case CommitFails =>
      if r.writer.Committing? then r.(writer := Returned(Failed)) else r
    case CommitAcks(ack) =>
      if r.writer.Committing? then AfterAck(env.cfg, r, r.writer.batch, ack) else r
    case Resume =>
      if r.writer.Pausing? then r.(writer := Waiting) else r
    case PauseCancelled =>
      if r.writer.Pausing? && r.cancelled then r.(writer := Returned(Failed)) else r
    case CancelParent =>
      r.(cancelled := true)
  }

  // ----- what every step keeps

  ghost predicate WellFormed(env: Env) {
    && Sorted(env.table) && Normal(env.cfg)
    && forall i | 0 <= i < |env.table| :: env.table[i].key != []
  }

  /** The rows this run still has to copy, fixed when it starts. */
  function Todo(env: Env, r: Run): seq<Keyed<Transform.Row>> {
    Select(env.table, r.bounds, r.startCursor)
  }

  function CursorAt(todo: seq<Keyed<Transform.Row>>, start: Key, p: int): Key {
    if 0 < p <= |todo| then todo[p - 1].key else start
  }

  function DataOf(items: seq<Item>): seq<Batch> {
    if items == [] then []
    else if items[0].Data? then [items[0].batch] + DataOf(items[1..])
    else DataOf(items[1..])
  }

  function InHand(r: Run): seq<Batch> {
    if r.writer.Writing? || r.writer.Committing? then [r.writer.batch] else []
  }

  function Pending(r: Run): seq<Batch> {
    if r.reader.Sending? && r.reader.item.Data? then [r.reader.item.batch] else []
  }

  /** Batches read and not yet committed, oldest first. */
  function Pipe(r: Run): seq<Batch> {
    InHand(r) + DataOf(r.channel) + Pending(r)
  }

  /** Rows covered by acknowledged commits of this run. */
  function Committed(r: Run): int {
    r.rowsRead - r.startRows - (if r.writer.Committing? then |r.writer.batch.rows| else 0)
  }

  /** The rows of consecutive batches. */
  function Flat(bs: seq<Batch>): seq<Keyed<Transform.Row>> {
    if bs == [] then [] else bs[0].rows + Flat(bs[1..])
  }

  predicate Cut(b: Batch) {
    b.rows != [] && b.cursor == b.rows[|b.rows| - 1].key
  }

  /** The batches are consecutive slices of todo starting at p, each with the key
      of its last row as cursor. */
  ghost predicate Chain(todo: seq<Keyed<Transform.Row>>, p: int, bs: seq<Batch>) {
    && 0 <= p && p + |Flat(bs)| <= |todo|
    && Flat(bs) == todo[p..p + |Flat(bs)|]
    && forall i | 0 <= i < |bs| :: Cut(bs[i])
  }

  ghost predicate Sized(c: Config, bs: seq<Batch>) {
    forall i | 0 <= i < |bs| :: c.min <= bs[i].requested <= c.max && |bs[i].rows| <= bs[i].requested
  }

  predicate EndsInFailure(channel: seq<Item>) {
    channel != [] && channel[|channel| - 1].Failure?
  }

  ghost predicate Failing(r: Run) {
    r.writer.Returned? && r.writer.outcome.Failed?
  }

  /** The invariant of a run, in three parts: sizes of what is in flight, positions in
      the chunk, and when the two goroutines may stop. */
  ghost predicate Inv(env: Env, r: Run) {
    && Sized(env.cfg, Pipe(r))
    && (!Failing(r) ==> Placed(Todo(env, r), r, Pipe(r)))
    && Controlled(env.cfg, |Todo(env, r)|, r, Committed(r) + |Flat(Pipe(r))|)
  }

  /** Everything before position p is durable and the batches in flight follow it. */
  ghost predicate PlacedAt(todo: seq<Keyed<Transform.Row>>, start: Key, p: int, pipe: seq<Batch>,
                           committed: Key, read: Key, reading: bool)
  {
    && Chain(todo, p, pipe)
    && committed == CursorAt(todo, start, p)
    && (reading ==> read == CursorAt(todo, start, p + |Flat(pipe)|))
  }

  ghost predicate Placed(todo: seq<Keyed<Transform.Row>>, r: Run, pipe: seq<Batch>) {
    PlacedAt(todo, r.startCursor, Committed(r), pipe, r.committedCursor, r.readCursor, !r.reader.Exited?)
  }

  /** The reader stops short of the end of the chunk only when told to. */
  ghost predicate Controlled(c: Config, n: nat, r: Run, end: int) {
    && c.min <= r.batchRows <= c.max
    && (r.reader.Reading? ==> c.min <= r.reader.limit <= c.max)
    && |r.channel| <= c.buffer
    && (EndsInFailure(r.channel) ==> r.reader.Exited?)
    && (!Failing(r) ==>
          && (r.reader.Sending? && r.reader.item.Data? && |r.reader.item.batch.rows| < r.reader.item.batch.requested
              ==> end == n)
          && (r.reader.Exited? && !r.cancelled && !r.writer.Returned? && !EndsInFailure(r.channel) ==> end == n)
          && (r.writer == Returned(Finished(false)) && !r.cancelled ==> Committed(r) == n))
  }

  lemma {:induction false} FlatAppend(bs: seq<Batch>, b: Batch)
    ensures Flat(bs + [b]) == Flat(bs) + b.rows
  {
    if bs == [] {
      assert bs + [b] == [b];
    } else {
      assert (bs + [b])[1..] == bs[1..] + [b];
      FlatAppend(bs[1..], b);
    }
  }

  lemma FlatHead(b: Batch, bs: seq<Batch>)
    ensures Flat([b] + bs) == b.rows + Flat(bs)
  {
    assert ([b] + bs)[1..] == bs;
  }

  /** Appending the next slice of todo, and giving it up again. */
  lemma ChainAppend(todo: seq<Keyed<Transform.Row>>, start: Key, p: int, bs: seq<Batch>, b: Batch)
    ensures Chain(todo, p, bs + [b]) ==> Chain(todo, p, bs)
    ensures Chain(todo, p, bs) && Cut(b) && p + |Flat(bs)| + |b.rows| <= |todo|
            && b.rows == todo[p + |Flat(bs)|..p + |Flat(bs)| + |b.rows|]
            ==> Chain(todo, p, bs + [b]) && |Flat(bs + [b])| == |Flat(bs)| + |b.rows|
                && b.cursor == CursorAt(todo, start, p + |Flat(bs + [b])|)
  {
    FlatAppend(bs, b);
    if Chain(todo, p, bs + [b]) {
      assert Flat(bs) == Flat(bs + [b])[..|Flat(bs)|];
      assert forall i | 0 <= i < |bs| :: bs[i] == (bs + [b])[i];
    }
  }

  /** Making the oldest batch durable moves the start of the chain to its last row. */
  lemma ChainHead(todo: seq<Keyed<Transform.Row>>, start: Key, p: int, b: Batch, bs: seq<Batch>)
    requires Chain(todo, p, [b] + bs)
    ensures Chain(todo, p + |b.rows|, bs) && |Flat([b] + bs)| == |b.rows| + |Flat(bs)|
    ensures p + |b.rows| <= |todo| && b.rows == todo[p..p + |b.rows|]
    ensures b.rows != [] && b.cursor == CursorAt(todo, start, p + |b.rows|)
  {
    FlatHead(b, bs);
    assert ([b] + bs)[0] == b;
    assert b.rows == Flat([b] + bs)[..|b.rows|];
    assert Flat(bs) == Flat([b] + bs)[|b.rows|..];
    assert forall i | 0 <= i < |bs| :: bs[i] == ([b] + bs)[i + 1];
  }

  lemma PagePlaced(todo: seq<Keyed<Transform.Row>>, start: Key, p: int, pipe: seq<Batch>,
                   committed: Key, read: Key, reading: bool, b: Batch)
    requires PlacedAt(todo, start, p, pipe, committed, read, reading) && Cut(b)
    requires p + |Flat(pipe)| + |b.rows| <= |todo|
    requires b.rows == todo[p + |Flat(pipe)|..p + |Flat(pipe)| + |b.rows|]
    ensures PlacedAt(todo, start, p, pipe + [b], committed, b.cursor, true)
    ensures |Flat(pipe + [b])| == |Flat(pipe)| + |b.rows|
  {
    ChainAppend(todo, start, p, pipe, b);
  }

  lemma HeadPlaced(todo: seq<Keyed<Transform.Row>>, start: Key, p: int, b: Batch, rest: seq<Batch>,
                   committed: Key, read: Key, reading: bool)
    requires PlacedAt(todo, start, p, [b] + rest, committed, read, reading)
    ensures PlacedAt(todo, start, p + |b.rows|, rest, b.cursor, read, reading)
    ensures |Flat([b] + rest)| == |b.rows| + |Flat(rest)|
  {
    ChainHead(todo, start, p, b, rest);
  }

  lemma Prepend(b: Batch, xs: seq<Batch>, ys: seq<Batch>)
    ensures [b] + xs + ys == [b] + (xs + ys)
  {
  }

  /** The batches behind the writer's. */
  function Behind(r: Run): seq<Batch> {
    DataOf(r.channel) + Pending(r)
  }

  /** The batch in the writer's hand is the oldest in flight. */
  lemma PipeHead(r: Run)
    ensures r.writer.Writing? || r.writer.Committing? ==> Pipe(r) == [r.writer.batch] + Behind(r)
    ensures !(r.writer.Writing? || r.writer.Committing?) ==> Pipe(r) == Behind(r)
  {
    if r.writer.Writing? || r.writer.Committing? {
      Prepend(r.writer.batch, DataOf(r.channel), Pending(r));
    } else {
      assert [] + DataOf(r.channel) == DataOf(r.channel);
    }
  }

  /** ... and the next slice of the chunk. */
  lemma InHandIsNext(todo: seq<Keyed<Transform.Row>>, r: Run)
    requires Placed(todo, r, Pipe(r)) && (r.writer.Writing? || r.writer.Committing?)
    ensures var b, p := r.writer.batch, Committed(r);
            && 0 <= p && p + |b.rows| <= |todo| && b.rows == todo[p..p + |b.rows|]
            && b.cursor == CursorAt(todo, r.startCursor, p + |b.rows|)
  {
    PipeHead(r);
    HeadIsNext(todo, r, Pipe(r), r.writer.batch, Behind(r));
  }

  lemma HeadIsNext(todo: seq<Keyed<Transform.Row>>, r: Run, pipe: seq<Batch>, b: Batch, rest: seq<Batch>)
    requires Placed(todo, r, pipe) && pipe == [b] + rest
    ensures var p := Committed(r);
            && 0 <= p && p + |b.rows| <= |todo| && b.rows == todo[p..p + |b.rows|]
            && b.cursor == CursorAt(todo, r.startCursor, p + |b.rows|)
  {
    ChainHead(todo, r.startCursor, Committed(r), b, rest);
  }

  lemma {:induction false} DataOfAppend(items: seq<Item>, item: Item)
    ensures DataOf(items + [item]) == DataOf(items) + (if item.Data? then [item.batch] else [])
  {
    if items == [] {
      assert items + [item] == [item];
    } else {
      assert (items + [item])[1..] == items[1..] + [item];
      DataOfAppend(items[1..], item);
    }
  }

  lemma StartKeeps(env: Env, bounds: Bounds, cursor: Key, rows: int)
    requires WellFormed(env)
    ensures Inv(env, Start(env, bounds, cursor, rows))
  {
  }

  /** Whatever position a cursor stands at, the rows behind it are the rest of todo. */
  lemma RemainderAt(env: Env, bounds: Bounds, start: Key, p: int)
    requires WellFormed(env)
    requires 0 <= p <= |Select(env.table, bounds, start)|
    ensures var todo := Select(env.table, bounds, start);
            Select(env.table, bounds, CursorAt(todo, start, p)) == todo[p..]
  {
    var todo := Select(env.table, bounds, start);
    if p > 0 {
      SelectMembers(env.table, bounds, start);
      assert todo[p - 1] in env.table;
      ResumeAt(env.table, bounds, start, p - 1);
    }
  }

  lemma SizedAppend(c: Config, bs: seq<Batch>, b: Batch)
    ensures Sized(c, bs + [b]) <==> Sized(c, bs) && Sized(c, [b])
  {
    assert (bs + [b])[|bs|] == b == [b][0];
    if Sized(c, bs + [b]) {
      assert forall i | 0 <= i < |bs| :: bs[i] == (bs + [b])[i];
    }
  }

  /** The next read takes the next slice of todo, and an empty one only at the end. */
  lemma ReadIsNextSlice(env: Env, r: Run, limit: nat)
    requires WellFormed(env) && Placed(Todo(env, r), r, Pipe(r)) && !r.reader.Exited? && 0 < limit
    ensures var todo, end := Todo(env, r), Committed(r) + |Flat(Pipe(r))|;
            var page := NextPage(env.table, r.bounds, r.readCursor, limit);
            && 0 <= end <= |todo| && |page| == Min(limit, |todo| - end)
            && page == todo[end..end + |page|]
  {
    RemainderAt(env, r.bounds, r.startCursor, Committed(r) + |Flat(Pipe(r))|);
  }

  lemma ReadAppends(r: Run, r': Run)
    requires r.reader.Reading? && r' == r.(reader := r'.reader, readCursor := r'.readCursor)
    ensures r'.reader.Exited? ==> Pipe(r') == Pipe(r)
    ensures r'.reader.Sending? && r'.reader.item.Data? ==> Pipe(r') == Pipe(r) + [r'.reader.item.batch]
  {
    assert Pipe(r) == InHand(r) + DataOf(r.channel);
  }

  /** A read appends its page to what is in flight. */
  lemma ReadPlaced(todo: seq<Keyed<Transform.Row>>, r: Run, page: seq<Keyed<Transform.Row>>, limit: int)
    requires Placed(todo, r, Pipe(r)) && r.reader.Reading?
    requires var end := Committed(r) + |Flat(Pipe(r))|;
             end + |page| <= |todo| && page == todo[end..end + |page|]
    ensures var r' := AfterRead(r, page, limit);
            && Placed(todo, r', Pipe(r'))
            && Committed(r') + |Flat(Pipe(r'))| == Committed(r) + |Flat(Pipe(r))| + |page|
  {
    if page == [] {
      EmptyPlaced(todo, r, AfterRead(r, page, limit));
    } else {
      SlicePlaced(todo, r, AfterRead(r, page, limit), Pipe(r));
    }
  }

  /** The reader has found nothing more. */
  lemma EmptyPlaced(todo: seq<Keyed<Transform.Row>>, r: Run, r': Run)
    requires Placed(todo, r, Pipe(r)) && r.reader.Reading? && r' == r.(reader := Exited)
    ensures Pipe(r') == Pipe(r) && Placed(todo, r', Pipe(r'))
  {
    ReadAppends(r, r');
  }

  /** The reader has the next slice. */
  lemma SlicePlaced(todo: seq<Keyed<Transform.Row>>, r: Run, r': Run, pipe: seq<Batch>)
    requires Placed(todo, r, pipe) && pipe == Pipe(r) && r.reader.Reading?
    requires r'.reader.Sending? && r'.reader.item.Data? && r' == r.(reader := r'.reader, readCursor := r'.readCursor)
    requires var b, end := r'.reader.item.batch, Committed(r) + |Flat(pipe)|;
             && Cut(b) && r'.readCursor == b.cursor
             && end + |b.rows| <= |todo| && b.rows == todo[end..end + |b.rows|]
    ensures Pipe(r') == pipe + [r'.reader.item.batch] && Placed(todo, r', Pipe(r'))
    ensures |Flat(Pipe(r'))| == |Flat(pipe)| + |r'.reader.item.batch.rows|
  {
    ReadAppends(r, r');
    PagePlaced(todo, r.startCursor, Committed(r), pipe, r.committedCursor, r.readCursor, true, r'.reader.item.batch);
  }

  lemma ReadOkSized(env: Env, r: Run)
    requires WellFormed(env) && Inv(env, r) && r.reader.Reading?
    ensures Sized(env.cfg, Pipe(Step(env, r, ReadOk)))
  {
    var r' := Step(env, r, ReadOk);
    ReadAppends(r, r');
    if r'.reader.Sending? {
      SizedAppend(env.cfg, Pipe(r), r'.reader.item.batch);
    }
  }

  lemma ReadControlled(c: Config, n: nat, r: Run, page: seq<Keyed<Transform.Row>>, end: int)
    requires Normal(c) && Controlled(c, n, r, end) && r.reader.Reading?
    requires 0 <= end <= n && |page| == Min(r.reader.limit, n - end)
    ensures Controlled(c, n, AfterRead(r, page, r.reader.limit), end + |page|)
  {
  }

  lemma ReadOkFailing(env: Env, r: Run)
    requires WellFormed(env) && Inv(env, r) && r.reader.Reading? && Failing(r)
    ensures Inv(env, Step(env, r, ReadOk))
  {
    ReadOkSized(env, r);
  }

  lemma ReadSliceKeeps(env: Env, r: Run, todo: seq<Keyed<Transform.Row>>, page: seq<Keyed<Transform.Row>>)
    requires Normal(env.cfg) && r.reader.Reading? && Placed(todo, r, Pipe(r))
    requires var end := Committed(r) + |Flat(Pipe(r))|;
             && 0 <= end && end + |page| <= |todo| && page == todo[end..end + |page|]
             && 0 <= r.reader.limit && |page| == Min(r.reader.limit, |todo| - end)
             && Controlled(env.cfg, |todo|, r, end)
    ensures var r' := AfterRead(r, page, r.reader.limit);
            && Placed(todo, r', Pipe(r'))
            && Controlled(env.cfg, |todo|, r', Committed(r') + |Flat(Pipe(r'))|)
  {
    ReadPlaced(todo, r, page, r.reader.limit);
    ReadControlled(env.cfg, |todo|, r, page, Committed(r) + |Flat(Pipe(r))|);
  }

  lemma ReadShape(env: Env, r: Run)
    requires r.reader.Reading? && r.reader.limit >= 0
    ensures var r' := Step(env, r, ReadOk);
            && r' == AfterRead(r, NextPage(env.table, r.bounds, r.readCursor, r.reader.limit), r.reader.limit)
            && Todo(env, r') == Todo(env, r) && (Failing(r') <==> Failing(r))
  {
  }

  lemma ReadOkKeeps(env: Env, r: Run)
    requires WellFormed(env) && Inv(env, r) && r.reader.Reading?
    ensures Inv(env, Step(env, r, ReadOk))
  {
    if Failing(r) {
      ReadOkFailing(env, r);
    } else {
      ReadShape(env, r);
      ReadOkSized(env, r);
      ReadIsNextSlice(env, r, r.reader.limit);
      ReadSliceKeeps(env, r, Todo(env, r), NextPage(env.table, r.bounds, r.readCursor, r.reader.limit));
    }
  }

  lemma SendKeeps(env: Env, r: Run)
    requires Inv(env, r) && r.reader.Sending? && |r.channel| < env.cfg.buffer
    ensures Inv(env, AfterSend(r, r.reader.item))
  {
    DataOfAppend(r.channel, r.reader.item);
    assert Pipe(AfterSend(r, r.reader.item)) == Pipe(r);
  }

  /** A cancelled reader drops the batch it could not send. */
  lemma AbandonKeeps(env: Env, r: Run)
    requires Inv(env, r) && r.reader.Sending? && Done(r)
    ensures Inv(env, r.(reader := Exited))
  {
    var r' := r.(reader := Exited);
    if r.reader.item.Data? {
      assert Pipe(r) == Pipe(r') + [r.reader.item.batch];
      SizedAppend(env.cfg, Pipe(r'), r.reader.item.batch);
      ChainAppend(Todo(env, r), r.startCursor, Committed(r), Pipe(r'), r.reader.item.batch);
    } else {
      assert Pipe(r') == Pipe(r);
    }
  }

  /** Taking a batch moves the oldest one from the channel into the writer's hand. */
  lemma TakeKeepsPipe(r: Run)
    requires r.writer.Waiting? && r.channel != [] && r.channel[0].Data?
    ensures Pipe(AfterTake(r, true)) == Pipe(r)
  {
    assert Pipe(r) == [r.channel[0].batch] + (DataOf(r.channel[1..]) + Pending(r));
    assert Pipe(AfterTake(r, true)) == [r.channel[0].batch] + (DataOf(r.channel[1..]) + Pending(r));
  }

  lemma TakeBatchKeeps(env: Env, r: Run)
    requires Inv(env, r) && r.writer.Waiting? && r.channel != [] && r.channel[0].Data?
    ensures Inv(env, AfterTake(r, true))
  {
    TakeKeepsPipe(r);
    assert Committed(AfterTake(r, true)) == Committed(r);
  }

  lemma TailSized(c: Config, b: Batch, bs: seq<Batch>)
    requires Sized(c, [b] + bs)
    ensures Sized(c, bs)
  {
    assert forall i | 0 <= i < |bs| :: bs[i] == ([b] + bs)[i + 1];
  }

  /** A read error, or rows without images, end the run with an error. */
  lemma SameEnd(channel: seq<Item>)
    requires channel != []
    ensures EndsInFailure(channel[1..]) ==> EndsInFailure(channel)
  {
  }

  lemma TakeDropsHead(r: Run)
    requires r.writer.Waiting? && r.channel != []
    ensures var r' := AfterTake(r, false);
            Pipe(r) == if r.channel[0].Data? then [r.channel[0].batch] + Pipe(r') else Pipe(r')
  {
    PipeHead(r);
    PipeHead(AfterTake(r, false));
    if r.channel[0].Data? {
      Prepend(r.channel[0].batch, DataOf(r.channel[1..]), Pending(r));
    }
  }

  lemma TakeFailureKeeps(env: Env, r: Run)
    requires Inv(env, r) && r.writer.Waiting? && r.channel != []
    ensures Inv(env, AfterTake(r, false))
  {
    TakeDropsHead(r);
    SameEnd(r.channel);
    var r' := AfterTake(r, false);
    assert r'.channel == r.channel[1..];
    if r.channel[0].Data? {
      TailSized(env.cfg, r.channel[0].batch, Pipe(r'));
    }
    FailedInv(env, r, r');
  }

  lemma TakeNothingKeeps(env: Env, r: Run)
    requires Inv(env, r) && r.writer.Waiting? && r.channel == []
    ensures Inv(env, Step(env, r, Take))
  {
    var r' := Step(env, r, Take);
    assert Pipe(r') == Pipe(r) && Committed(r') == Committed(r);
    assert r.reader.Exited? ==> Pipe(r) == [];
  }

  lemma TakeKeeps(env: Env, r: Run)
    requires Inv(env, r)
    ensures Inv(env, Step(env, r, Take))
  {
    if r.writer.Waiting? && r.channel != [] {
      if r.channel[0].Data? && Translates(env, r.channel[0].batch.rows) {
        TakeBatchKeeps(env, r);
      } else {
        TakeFailureKeeps(env, r);
      }
    } else if r.writer.Waiting? {
      TakeNothingKeeps(env, r);
    }
  }

  lemma NextBatchRowsInRange(c: Config, batchRows: int, a: Ack, rows: int, requested: int)
    requires Normal(c)
    ensures c.min <= NextBatchRows(c, batchRows, a, rows, requested) <= c.max
  {
  }

  lemma AckDropsHead(c: Config, r: Run, ack: Ack)
    requires r.writer.Committing?
    ensures var r' := AfterAck(c, r, r.writer.batch, ack);
            && Pipe(r) == [r.writer.batch] + Pipe(r')
            && Committed(r') == Committed(r) + |r.writer.batch.rows|
            && r'.committedCursor == r.writer.batch.cursor && r'.startCursor == r.startCursor
            && r'.readCursor == r.readCursor && r'.reader == r.reader
  {
  }

  lemma HeadDropped(todo: seq<Keyed<Transform.Row>>, r: Run, r': Run, b: Batch, rest: seq<Batch>)
    requires Placed(todo, r, [b] + rest) && Committed(r') == Committed(r) + |b.rows|
    requires r'.committedCursor == b.cursor && r'.startCursor == r.startCursor
    requires r'.readCursor == r.readCursor && r'.reader == r.reader
    ensures Placed(todo, r', rest)
    ensures Committed(r') + |Flat(rest)| == Committed(r) + |Flat([b] + rest)|
  {
    HeadPlaced(todo, r.startCursor, Committed(r), b, rest, r.committedCursor, r.readCursor, !r.reader.Exited?);
  }

  /** An acknowledged commit makes exactly the batch in hand durable. */
  lemma AckPlaced(c: Config, todo: seq<Keyed<Transform.Row>>, r: Run, ack: Ack)
    requires Placed(todo, r, Pipe(r)) && r.writer.Committing?
    ensures var r' := AfterAck(c, r, r.writer.batch, ack);
            && Placed(todo, r', Pipe(r'))
            && Committed(r') + |Flat(Pipe(r'))| == Committed(r) + |Flat(Pipe(r))|
  {
    var r' := AfterAck(c, r, r.writer.batch, ack);
    AckDropsHead(c, r, ack);
    HeadDropped(todo, r, r', r.writer.batch, Pipe(r'));
  }

  lemma AckKeeps(env: Env, r: Run, ack: Ack)
    requires WellFormed(env) && Inv(env, r) && r.writer.Committing?
    ensures Inv(env, AfterAck(env.cfg, r, r.writer.batch, ack))
  {
    var b, r' := r.writer.batch, AfterAck(env.cfg, r, r.writer.batch, ack);
    AckDropsHead(env.cfg, r, ack);
    NextBatchRowsInRange(env.cfg, r.batchRows, ack, |b.rows|, b.requested);
    TailSized(env.cfg, b, Pipe(r'));
    AckPlaced(env.cfg, Todo(env, r), r, ack);
  }

  lemma FailureDropsHead(r: Run, r': Run)
    requires (r.writer.Writing? || r.writer.Committing?) && r' == r.(writer := Returned(Failed))
    ensures Pipe(r) == [r.writer.batch] + Pipe(r')
  {
    PipeHead(r);
    PipeHead(r');
  }

  /** A failed run keeps the invariant whatever it drops from what is in flight. */
  lemma FailedInv(env: Env, r: Run, r': Run)
    requires Inv(env, r) && Failing(r') && Sized(env.cfg, Pipe(r'))
    requires r'.bounds == r.bounds && r'.startCursor == r.startCursor && r'.batchRows == r.batchRows && r'.reader == r.reader
    requires |r'.channel| <= |r.channel| && (EndsInFailure(r'.channel) ==> EndsInFailure(r.channel))
    ensures Inv(env, r')
  {
  }

  lemma FailureKeeps(env: Env, r: Run, e: Event)
    requires Inv(env, r) && (e.WriteFails? || e.CommitFails?)
    ensures Inv(env, Step(env, r, e))
  {
    var r' := Step(env, r, e);
    if r' != r {
      FailureDropsHead(r, r');
      TailSized(env.cfg, r.writer.batch, Pipe(r'));
      FailedInv(env, r, r');
    }
  }

  /** Steps that leave what is in flight and the cursors alone. */
  lemma QuietShape(env: Env, r: Run, e: Event)
    requires e.Load? || e.ReadFails? || e.WriteOk? || e.Resume? || e.CancelParent? || e.PauseCancelled?
    ensures var r' := Step(env, r, e);
            && Pipe(r') == Pipe(r) && Committed(r') == Committed(r) && Todo(env, r') == Todo(env, r)
            && r'.startCursor == r.startCursor && r'.committedCursor == r.committedCursor && r'.readCursor == r.readCursor
            && (r.reader.Exited? <==> r'.reader.Exited?) && (Failing(r) ==> Failing(r'))
  {
    var r' := Step(env, r, e);
    assert InHand(r') == InHand(r) && DataOf(r'.channel) == DataOf(r.channel) && Pending(r') == Pending(r);
  }

  lemma QuietKeeps(env: Env, r: Run, e: Event)
    requires WellFormed(env) && Inv(env, r)
    requires e.Load? || e.ReadFails? || e.WriteOk? || e.Resume? || e.CancelParent? || e.PauseCancelled?
    ensures Inv(env, Step(env, r, e))
  {
    QuietShape(env, r, e);
  }

  lemma StepKeeps(env: Env, r: Run, e: Event)
    requires WellFormed(env) && Inv(env, r)
    ensures Inv(env, Step(env, r, e))
  {
    match e
    case ReadOk =>
      if r.reader.Reading? {
        ReadOkKeeps(env, r);
      }
    case Send =>
      if r.reader.Sending? && |r.channel| < env.cfg.buffer {
        SendKeeps(env, r);
      }
    case Abandon =>
      if r.reader.Sending? && Done(r) {
        AbandonKeeps(env, r);
      }
    case Take => TakeKeeps(env, r);
    case WriteFails => FailureKeeps(env, r, e);
    case CommitFails => FailureKeeps(env, r, e);
    case CommitAcks(ack) =>
      if r.writer.Committing? {
        AckKeeps(env, r, ack);
      }
    case _ => QuietKeeps(env, r, e);
  }

  // ----- whole runs

  function Exec(env: Env, r: Run, events: seq<Event>): Run
    decreases |events|
  {
    if events == [] then r else Exec(env, Step(env, r, events[0]), events[1..])
  }

  lemma {:induction false} ExecKeeps(env: Env, r: Run, events: seq<Event>)
    requires WellFormed(env) && Inv(env, r)
    ensures Inv(env, Exec(env, r, events))
    decreases |events|
  {
    if events != [] {
      StepKeeps(env, r, events[0]);
      ExecKeeps(env, Step(env, r, events[0]), events[1..]);
    }
  }

  lemma StepKeepsJob(env: Env, r: Run, e: Event)
    ensures var r' := Step(env, r, e);
            r'.bounds == r.bounds && r'.startCursor == r.startCursor && r'.startRows == r.startRows
  {
  }

  lemma {:induction false} ExecKeepsJob(env: Env, r: Run, events: seq<Event>)
    ensures var r' := Exec(env, r, events);
            r'.bounds == r.bounds && r'.startCursor == r.startCursor && r'.startRows == r.startRows
    decreases |events|
  {
    if events != [] {
      StepKeepsJob(env, r, events[0]);
      ExecKeepsJob(env, Step(env, r, events[0]), events[1..]);
    }
  }

  lemma {:induction false} FlatBound(c: Config, bs: seq<Batch>)
    requires Sized(c, bs) && Normal(c)
    ensures |Flat(bs)| <= |bs| * c.max
    decreases |bs|
  {
    if bs != [] {
      assert forall i | 0 <= i < |bs[1..]| :: bs[1..][i] == bs[i + 1];
      FlatBound(c, bs[1..]);
      assert |bs| * c.max == |bs[1..]| * c.max + c.max;
    }
  }

  lemma {:induction false} DataOfLength(items: seq<Item>)
    ensures |DataOf(items)| <= |items|
  {
    if items != [] {
      DataOfLength(items[1..]);
    }
  }

  /** Under every interleaving, what has been read and not committed fits in the buffer
      plus one batch in each goroutine's hand, and each read stays inside the limits. */
  lemma ReadAheadIsBounded(env: Env, bounds: Bounds, cursor: Key, rows: int, events: seq<Event>)
    requires WellFormed(env)
    ensures var r := Exec(env, Start(env, bounds, cursor, rows), events);
            && |Flat(Pipe(r))| <= (env.cfg.buffer + 2) * env.cfg.max
            && (r.reader.Reading? ==> env.cfg.min <= r.reader.limit <= env.cfg.max)
            && forall i | 0 <= i < |Pipe(r)| :: |Pipe(r)[i].rows| <= Pipe(r)[i].requested <= env.cfg.max
  {
    var r := Exec(env, Start(env, bounds, cursor, rows), events);
    StartKeeps(env, bounds, cursor, rows);
    ExecKeeps(env, Start(env, bounds, cursor, rows), events);
    InvBounds(env, r);
  }

  lemma PipeLength(r: Run)
    ensures |Pipe(r)| <= |r.channel| + 2
  {
    DataOfLength(r.channel);
  }

  lemma InvBounds(env: Env, r: Run)
    requires Normal(env.cfg) && Inv(env, r)
    ensures |Flat(Pipe(r))| <= (env.cfg.buffer + 2) * env.cfg.max
    ensures r.reader.Reading? ==> env.cfg.min <= r.reader.limit <= env.cfg.max
    ensures forall i | 0 <= i < |Pipe(r)| :: |Pipe(r)[i].rows| <= Pipe(r)[i].requested <= env.cfg.max
  {
    PipeLength(r);
    FlatBound(env.cfg, Pipe(r));
    MulMonotone(|Pipe(r)|, env.cfg.buffer + 2, env.cfg.max);
  }

  lemma MulMonotone(a: nat, b: nat, m: nat)
    requires a <= b
    ensures a * m <= b * m
  {
  }

  /** A nil result without a stop request means the whole chunk is committed, provided
      the parent context was not cancelled: then nothing remains behind the cursor. */
  lemma NilMeansComplete(env: Env, bounds: Bounds, cursor: Key, rows: int, events: seq<Event>)
    requires WellFormed(env)
    ensures var r := Exec(env, Start(env, bounds, cursor, rows), events);
            r.writer == Returned(Finished(false)) && !r.cancelled ==>
              && Select(env.table, bounds, r.committedCursor) == []
              && r.rowsRead == rows + |Select(env.table, bounds, cursor)|
  {
    var start := Start(env, bounds, cursor, rows);
    var r := Exec(env, start, events);
    StartKeeps(env, bounds, cursor, rows);
    ExecKeeps(env, start, events);
    ExecKeepsJob(env, start, events);
    if r.writer == Returned(Finished(false)) && !r.cancelled {
      RemainderAt(env, bounds, cursor, Committed(r));
    }
  }

  // ----- termination and progress

  function ReaderWeight(r: Reader): nat {
    match r
    case Idle => 10
    case Reading(_) => 9
    case Sending(item) => if item.Data? then 15 else 5
    case Exited => 0
  }

  function WriterWeight(w: Writer): nat {
    match w
    case Waiting => 1
    case Writing(_) => 4
    case Committing(_) => 3
    case Pausing => 2
    case Returned(_) => 0
  }

  /** An upper bound on the steps a run can still take. */
  function Fuel(env: Env, r: Run): nat {
    8 * |Select(env.table, r.bounds, r.readCursor)| + ReaderWeight(r.reader) + 4 * |r.channel|
    + WriterWeight(r.writer) + (if r.cancelled then 0 else 1)
  }

  lemma ReadConsumes(env: Env, r: Run)
    requires WellFormed(env) && r.reader.Reading? && 0 < r.reader.limit
    ensures Fuel(env, Step(env, r, ReadOk)) < Fuel(env, r)
  {
    var rest := Select(env.table, r.bounds, r.readCursor);
    var page := NextPage(env.table, r.bounds, r.readCursor, r.reader.limit);
    if page != [] {
      SelectMembers(env.table, r.bounds, r.readCursor);
      assert rest[|page| - 1] in env.table;
      ResumeAt(env.table, r.bounds, r.readCursor, |page| - 1);
    }
  }

  /** Every step that changes anything uses fuel up, whatever the scheduler, the
      connectors and the control plane do. */
  lemma StepConsumes(env: Env, r: Run, e: Event)
    requires WellFormed(env) && Inv(env, r)
    ensures Step(env, r, e) == r || Fuel(env, Step(env, r, e)) < Fuel(env, r)
  {
    match e
    case ReadOk =>
      if r.reader.Reading? {
        ReadConsumes(env, r);
      }
    case Take => TakeConsumes(env, r);
    case Send => SendConsumes(env, r);
    case _ => ElsewhereConsumes(env, r, e);
  }

  /** Steps that move no batch and no cursor of the reader. */
  lemma ElsewhereConsumes(env: Env, r: Run, e: Event)
    requires !e.ReadOk? && !e.Take? && !e.Send?
    ensures Step(env, r, e) == r || Fuel(env, Step(env, r, e)) < Fuel(env, r)
  {
    var r' := Step(env, r, e);
    assert r'.readCursor == r.readCursor && r'.channel == r.channel && r'.bounds == r.bounds;
    WeightsFall(env, r, e);
  }

  lemma WeightsFall(env: Env, r: Run, e: Event)
    requires !e.ReadOk? && !e.Take? && !e.Send?
    ensures var r' := Step(env, r, e);
            var before := ReaderWeight(r.reader) + WriterWeight(r.writer) + if r.cancelled then 0 else 1;
            var after := ReaderWeight(r'.reader) + WriterWeight(r'.writer) + if r'.cancelled then 0 else 1;
            r' == r || after < before
  {
  }

  lemma TakeConsumes(env: Env, r: Run)
    ensures Step(env, r, Take) == r || Fuel(env, Step(env, r, Take)) < Fuel(env, r)
  {
  }

  lemma SendConsumes(env: Env, r: Run)
    ensures Step(env, r, Send) == r || Fuel(env, Step(env, r, Send)) < Fuel(env, r)
  {
  }

  function Effective(env: Env, r: Run, events: seq<Event>): nat
    decreases |events|
  {
    if events == [] then 0
    else
      var r' := Step(env, r, events[0]);
      (if r' == r then 0 else 1) + Effective(env, r', events[1..])
  }

  /** No schedule keeps a run going forever: at most 8 steps per remaining row plus 12. */
  lemma {:induction false} RunsTerminate(env: Env, r: Run, events: seq<Event>)
    requires WellFormed(env) && Inv(env, r)
    ensures Effective(env, r, events) + Fuel(env, Exec(env, r, events)) <= Fuel(env, r)
    decreases |events|
  {
    if events != [] {
      StepKeeps(env, r, events[0]);
      StepConsumes(env, r, events[0]);
      RunsTerminate(env, Step(env, r, events[0]), events[1..]);
    }
  }

  /** A step that succeeds where it can fail; it exists as long as the run has not returned. */
  function Forward(env: Env, r: Run): Event {
    match r.writer
    case Writing(_) => WriteOk
    case Committing(_) => CommitAcks(Ack(Control(Ordinary, 0, 0, false), 0, 0))
    case Pausing => Resume
    case _ =>
      if r.channel != [] then Take
      else match r.reader
        case Idle => Load
        case Reading(_) => ReadOk
        case Sending(_) => Send
        case Exited => Take
  }

  lemma WriterMoves(env: Env, r: Run)
    requires !r.writer.Waiting? && !r.writer.Returned?
    ensures Step(env, r, Forward(env, r)).writer != r.writer
  {
  }

  lemma TakeMoves(env: Env, r: Run)
    requires r.writer.Waiting? && (r.channel != [] || r.reader.Exited?)
    ensures Step(env, r, Take) != r
  {
    if r.channel != [] {
      assert |Step(env, r, Take).channel| < |r.channel|;
    }
  }

  lemma ReaderMoves(env: Env, r: Run)
    requires WellFormed(env) && Inv(env, r) && r.writer.Waiting? && r.channel == [] && !r.reader.Exited?
    ensures Step(env, r, Forward(env, r)) != r
  {
    if r.reader.Reading? {
      ReadConsumes(env, r);
    } else {
      assert Step(env, r, Forward(env, r)).reader != r.reader;
    }
  }

  /** The bounded channel never deadlocks the two goroutines. */
  lemma NoDeadlock(env: Env, r: Run)
    requires WellFormed(env) && Inv(env, r) && !r.writer.Returned?
    ensures Step(env, r, Forward(env, r)) != r
  {
    if !r.writer.Waiting? {
      WriterMoves(env, r);
    } else if r.channel != [] || r.reader.Exited? {
      TakeMoves(env, r);
    } else {
      ReaderMoves(env, r);
    }
  }

  ghost predicate Healthy(env: Env, r: Run) {
    && !r.cancelled && !Failing(r) && r.writer != Returned(Finished(true))
    && (r.reader.Sending? ==> r.reader.item.Data?)
    && (forall i | 0 <= i < |r.channel| :: r.channel[i].Data? && Translates(env, r.channel[i].batch.rows))
    && (r.reader.Sending? ==> Translates(env, r.reader.item.batch.rows))
  }

  ghost predicate AllTranslate(env: Env) {
    forall i | 0 <= i < |env.table| :: Image(env, env.table[i]).Ok?
  }

  lemma {:induction false} ItemsLength(rows: seq<Keyed<Transform.Row>>)
    ensures |Items(rows)| == |rows| && forall i | 0 <= i < |rows| :: Items(rows)[i] == rows[i].item
  {
    if rows != [] {
      ItemsLength(rows[1..]);
    }
  }

  lemma TranslatesPointwise(env: Env, rows: seq<Keyed<Transform.Row>>)
    ensures Translates(env, rows) <==> forall i | 0 <= i < |rows| :: Image(env, rows[i]).Ok?
  {
    ItemsLength(rows);
    Transform.RowImagesPointwise(env.plan, Items(rows));
    if Translates(env, rows) {
      forall i | 0 <= i < |rows| ensures Image(env, rows[i]).Ok? {
        assert Items(rows)[i] == rows[i].item;
      }
    }
  }

  lemma PageTranslates(env: Env, bounds: Bounds, cursor: Key, limit: nat)
    requires AllTranslate(env)
    ensures Translates(env, NextPage(env.table, bounds, cursor, limit))
  {
    var page := NextPage(env.table, bounds, cursor, limit);
    SelectMembers(env.table, bounds, cursor);
    forall i | 0 <= i < |page| ensures Image(env, page[i]).Ok? {
      assert page[i] == Select(env.table, bounds, cursor)[i];
      assert page[i] in env.table;
    }
    TranslatesPointwise(env, page);
  }

  lemma ForwardStaysHealthy(env: Env, r: Run)
    requires WellFormed(env) && Inv(env, r) && AllTranslate(env) && Healthy(env, r) && !r.writer.Returned?
    ensures Healthy(env, Step(env, r, Forward(env, r)))
  {
    match Forward(env, r)
    case ReadOk => ReadStaysHealthy(env, r);
    case Take => TakeStaysHealthy(env, r);
    case Send => SendStaysHealthy(env, r);
    case _ =>
  }

  lemma ReadStaysHealthy(env: Env, r: Run)
    requires AllTranslate(env) && Healthy(env, r)
    ensures Healthy(env, Step(env, r, ReadOk))
  {
    if r.reader.Reading? && r.reader.limit >= 0 {
      PageTranslates(env, r.bounds, r.readCursor, r.reader.limit);
    }
  }

  lemma TakeStaysHealthy(env: Env, r: Run)
    requires Healthy(env, r)
    ensures Healthy(env, Step(env, r, Take))
  {
  }

  lemma SendStaysHealthy(env: Env, r: Run)
    requires Healthy(env, r)
    ensures Healthy(env, Step(env, r, Send))
  {
  }

  /** From any healthy state of a run over translatable rows, some schedule finishes the chunk. */
  lemma {:induction false} CanComplete(env: Env, r: Run)
    requires WellFormed(env) && Inv(env, r) && AllTranslate(env) && Healthy(env, r)
    ensures exists events :: Completes(env, r, events)
    decreases Fuel(env, r)
  {
    if r.writer.Returned? {
      assert Completes(env, r, []);
    } else {
      var e := Forward(env, r);
      StepKeeps(env, r, e);
      NoDeadlock(env, r);
      StepConsumes(env, r, e);
      ForwardStaysHealthy(env, r);
      CanComplete(env, Step(env, r, e));
      var rest :| Completes(env, Step(env, r, e), rest);
      assert ([e] + rest)[0] == e && ([e] + rest)[1..] == rest;
      assert Completes(env, r, [e] + rest);
    }
  }

  ghost predicate Completes(env: Env, r: Run, events: seq<Event>) {
    var r' := Exec(env, r, events);
    r'.writer == Returned(Finished(false)) && !r'.cancelled
  }

  // ----- why the caller must look at the parent context

  lemma {:induction false} ExecConcat(env: Env, r: Run, a: seq<Event>, b: seq<Event>)
    ensures Exec(env, r, a + b) == Exec(env, Exec(env, r, a), b)
    decreases |a|
  {
    if a == [] {
      assert a + b == b;
    } else {
      assert (a + b)[1..] == a[1..] + b;
      ExecConcat(env, Step(env, r, a[0]), a[1..], b);
    }
  }

  lemma ExecOne(env: Env, r: Run, e: Event)
    ensures Exec(env, r, [e]) == Step(env, r, e)
  {
    assert [e][1..] == [];
  }

  lemma ExecThree(env: Env, r: Run, a: Event, b: Event, c: Event)
    ensures Exec(env, r, [a, b, c]) == Step(env, Step(env, Step(env, r, a), b), c)
  {
    assert [a, b, c] == [a] + ([b] + [c]);
    ExecConcat(env, r, [a], [b] + [c]);
    ExecOne(env, r, a);
    ExecConcat(env, Step(env, r, a), [b], [c]);
    ExecOne(env, Step(env, r, a), b);
    ExecOne(env, Step(env, Step(env, r, a), b), c);
  }

  /** The run returns nil without a stop request and leaves rows behind its cursor. */
  ghost predicate EndsEarly(env: Env, bounds: Bounds, cursor: Key, rows: int, events: seq<Event>) {
    var r := Exec(env, Start(env, bounds, cursor, rows), events);
    r.writer == Returned(Finished(false)) && Select(env.table, bounds, r.committedCursor) != []
  }

  /** The reader is cancelled while it holds its first page; the writer sees a closed channel. */
  const CANCELLED_WHILE_SENDING: seq<Event> := [Load, ReadOk, CancelParent] + ([Abandon] + [Take])

  lemma FirstPageHeld(env: Env, bounds: Bounds, cursor: Key, rows: int)
    requires WellFormed(env) && Select(env.table, bounds, cursor) != []
    ensures var start := Start(env, bounds, cursor, rows);
            var r := Exec(env, start, [Load, ReadOk, CancelParent]);
            && r.reader.Sending? && r == start.(reader := r.reader, readCursor := r.readCursor, cancelled := true)
  {
    ExecThree(env, Start(env, bounds, cursor, rows), Load, ReadOk, CancelParent);
  }

  lemma CancelledRunEndsEarly(env: Env, bounds: Bounds, cursor: Key, rows: int)
    requires WellFormed(env) && Select(env.table, bounds, cursor) != []
    ensures EndsEarly(env, bounds, cursor, rows, CANCELLED_WHILE_SENDING)
  {
    var start := Start(env, bounds, cursor, rows);
    FirstPageHeld(env, bounds, cursor, rows);
    var held := Exec(env, start, [Load, ReadOk, CancelParent]);
    ExecConcat(env, start, [Load, ReadOk, CancelParent], [Abandon] + [Take]);
    ExecConcat(env, held, [Abandon], [Take]);
    ExecOne(env, held, Abandon);
    ExecOne(env, Step(env, held, Abandon), Take);
  }

  lemma EmptyChunkEndsWhole(env: Env, bounds: Bounds, cursor: Key, rows: int, events: seq<Event>)
    requires WellFormed(env) && Select(env.table, bounds, cursor) == []
    ensures !EndsEarly(env, bounds, cursor, rows, events)
  {
    var start := Start(env, bounds, cursor, rows);
    StartKeeps(env, bounds, cursor, rows);
    ExecKeeps(env, start, events);
    ExecKeepsJob(env, start, events);
  }

  /** Without the caller's own look at the parent context a nil result means nothing: a run
      can end early if and only if its chunk has a row to copy. Every such run was
      cancelled (NilMeansComplete). */
  lemma NilAfterCancelMayBeEarly(env: Env, bounds: Bounds, cursor: Key, rows: int)
    requires WellFormed(env)
    ensures (exists events :: EndsEarly(env, bounds, cursor, rows, events)) <==> Select(env.table, bounds, cursor) != []
    ensures forall events :: EndsEarly(env, bounds, cursor, rows, events)
              ==> Exec(env, Start(env, bounds, cursor, rows), events).cancelled
  {
    if Select(env.table, bounds, cursor) != [] {
      CancelledRunEndsEarly(env, bounds, cursor, rows);
    } else {
      forall events ensures !EndsEarly(env, bounds, cursor, rows, events) {
        EmptyChunkEndsWhole(env, bounds, cursor, rows, events);
      }
    }
    forall events | EndsEarly(env, bounds, cursor, rows, events)
      ensures Exec(env, Start(env, bounds, cursor, rows), events).cancelled
    {
      NilMeansComplete(env, bounds, cursor, rows, events);
    }
  }
}
