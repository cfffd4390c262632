/** From planning to the finished copy: the planned chunks of a table are a plan the
    migration machine can run, so its guarantees hold end to end. */
module Migration {
  import opened Keys
  import opened Reading
  import opened Partition
  import ChunkPlanner
  import P = Pipeline
  import W = Worker
  import Yield

  ghost predicate Fresh(env: P.Env, pieces: seq<Piece>) {
    forall p | 0 <= p < |pieces| :: pieces[p].cursor == [] && W.KeysFit(env, pieces[p].bounds)
  }

  lemma FreshFirst(env: P.Env, piece: Piece, rest: seq<Piece>)
    requires piece.cursor == [] && W.KeysFit(env, piece.bounds) && Fresh(env, rest)
    ensures Fresh(env, [piece] + rest)
  {
    var all := [piece] + rest;
    assert all[0] == piece && forall p | 1 <= p < |all| :: all[p] == rest[p - 1];
  }

  lemma {:induction false} RangePiecesFit(env: P.Env, chunks: seq<ChunkPlanner.Chunk>)
    requires forall i | 0 <= i < |env.table| :: |env.table[i].key| == 1
    ensures Fresh(env, ChunkPlanner.PiecesOf(chunks))
  {
    if chunks != [] {
      RangePiecesFit(env, chunks[1..]);
      FreshFirst(env, Piece(RangeBounds(chunks[0].start, chunks[0].end), []), ChunkPlanner.PiecesOf(chunks[1..]));
    }
  }

  /** Integer chunks over the key range of a table with an integer key. */
  lemma RangePlanIsPlan(env: P.Env, chunks: seq<ChunkPlanner.Chunk>, min: int, max: int, span: int)
    requires P.WellFormed(env) && ChunkPlanner.Covers(chunks, min, max, span)
    requires forall i | 0 <= i < |env.table| :: |env.table[i].key| == 1 && min <= env.table[i].key[0] <= max
    ensures W.Plans(env, ChunkPlanner.PiecesOf(chunks)) && Divides(env.table, ChunkPlanner.PiecesOf(chunks), W.WHOLE)
  {
    RangePiecesFit(env, chunks);
    forall i | 0 <= i < |env.table| ensures Hits(ChunkPlanner.PiecesOf(chunks), env.table[i].key) == 1 {
      ChunkPlanner.CoversEachKeyOnce(chunks, min, max, span, env.table[i].key[0]);
      assert env.table[i].key == [env.table[i].key[0]];
    }
  }

  lemma {:induction false} KeysetPiecesFit(env: P.Env, lower: Key, boundaries: seq<Key>, upper: Key)
    ensures Fresh(env, KeysetPieces(lower, boundaries, upper))
    decreases |boundaries|
  {
    if boundaries == [] {
      assert KeysetPieces(lower, boundaries, upper) == [Piece(KeysetBounds(lower, upper), [])] + [];
      FreshFirst(env, Piece(KeysetBounds(lower, upper), []), []);
    } else {
      KeysetPiecesFit(env, boundaries[0], boundaries[1..], upper);
      FreshFirst(env, Piece(KeysetBounds(lower, boundaries[0]), []), KeysetPieces(boundaries[0], boundaries[1..], upper));
    }
  }

  /** Keyset chunks between any boundaries, for any table. */
  lemma KeysetPlanIsPlan(env: P.Env, boundaries: seq<Key>)
    ensures W.Plans(env, KeysetPieces([], boundaries, []))
  {
    KeysetPiecesFit(env, [], boundaries, []);
    forall i | 0 <= i < |env.table| ensures Hits(KeysetPieces([], boundaries, []), env.table[i].key) >= 1 {
      EveryKeyIsCovered([], boundaries, [], env.table[i].key);
    }
  }

  /** A table migrated in keyset chunks, planned at any boundaries and run by any workers in
      any way, ends as one pass over the table would have left it. The counters are exact if
      all chunks were planned and cut at sorted points. */
  lemma KeysetMigrationEqualsOnePass(env: P.Env, boundaries: seq<Key>, t0: W.Target, events: seq<W.Event>)
    requires P.WellFormed(env) && W.Consistent(env)
    ensures var start := W.Initial(KeysetPieces([], boundaries, []), t0);
            var s := W.Exec(env, start, events);
            W.AllComplete(s.chunks) ==>
              && s.target == W.UpsertAll(env, t0, env.table) && W.RowsRead(s.chunks) >= |env.table|
              && (NonEmptyKeys(boundaries) && Ascending([], boundaries, []) && W.AllSorted(env, start, events) ==>
                    W.RowsRead(s.chunks) == |env.table|)
  {
    var pieces := KeysetPieces([], boundaries, []);
    KeysetPlanIsPlan(env, boundaries);
    W.CompletionEqualsOnePass(env, pieces, t0, events);
    if NonEmptyKeys(boundaries) && Ascending([], boundaries, []) && W.AllSorted(env, W.Initial(pieces, t0), events) {
      forall i | 0 <= i < |env.table| ensures Hits(pieces, env.table[i].key) == 1 {
        OrderedIntervalsHitOnce([], boundaries, [], env.table[i].key);
      }
      W.InitialInv(env, pieces, t0);
      W.SortedCutsDivide(env, t0, W.Initial(pieces, t0), events);
    }
  }

  // ----- integer chunks

  ghost predicate AllNarrow(chunks: seq<W.Chunk>) {
    forall c | 0 <= c < |chunks| :: chunks[c].bounds.RangeBounds? && Yield.Narrow(chunks[c].bounds)
  }

  lemma CutStaysNarrow(s: W.State, e: W.Event)
    requires AllNarrow(s.chunks) && W.Cuts(s, e)
    ensures AllNarrow(W.CompleteYielded(s, s.attempts[e.attempt], e.split).chunks)
  {
    var a, rest := s.attempts[e.attempt], W.CutPieces(s, e);
    var p := W.CutPiece(s, e);
    W.NewChunksAt(rest);
    Yield.RemainderShapes(p.bounds, p.cursor, e.split);
    Yield.RemaindersStayNarrow(p.bounds, p.cursor, e.split, 0);
    var cut := W.CompleteYielded(s, a, e.split).chunks;
    forall c | 0 <= c < |cut| ensures cut[c].bounds.RangeBounds? && Yield.Narrow(cut[c].bounds) {
      if c >= |s.chunks| {
        Yield.RemaindersStayNarrow(p.bounds, p.cursor, e.split, c - |s.chunks|);
        assert cut[c] == W.NewChunks(rest)[c - |s.chunks|];
      }
    }
  }

  lemma NextStaysNarrow(env: P.Env, s: W.State, e: W.Event)
    requires AllNarrow(s.chunks)
    ensures AllNarrow(W.Next(env, s, e).chunks)
  {
    if W.Cuts(s, e) {
      CutStaysNarrow(s, e);
    }
  }

  lemma RangeCutIsSorted(s: W.State, e: W.Event)
    requires AllNarrow(s.chunks) && W.Cuts(s, e)
    ensures W.CutSorted(W.CutPiece(s, e), e.split)
  {
    assert s.chunks[s.attempts[e.attempt].chunk].bounds.RangeBounds?;
  }

  /** The chunks of an integer migration stay integer ranges of at most MAX64 keys, so the
      remainders of every cut are computed in int64 without harm. */
  lemma {:induction false} RangeChunksStayNarrow(env: P.Env, s: W.State, events: seq<W.Event>)
    requires AllNarrow(s.chunks)
    ensures AllNarrow(W.Exec(env, s, events).chunks) && W.AllSorted(env, s, events)
    decreases |events|
  {
    if events != [] {
      NextStaysNarrow(env, s, events[0]);
      if W.Cuts(s, events[0]) {
        RangeCutIsSorted(s, events[0]);
      }
      RangeChunksStayNarrow(env, W.Next(env, s, events[0]), events[1..]);
    }
  }

  lemma {:induction false} PiecesAt(chunks: seq<ChunkPlanner.Chunk>, i: nat)
    requires i < |chunks|
    ensures |ChunkPlanner.PiecesOf(chunks)| == |chunks|
    ensures ChunkPlanner.PiecesOf(chunks)[i] == Piece(RangeBounds(chunks[i].start, chunks[i].end), [])
  {
    if |chunks| > 1 {
      PiecesAt(chunks[1..], if i == 0 then 0 else i - 1);
    }
  }

  lemma PlannedChunksAreNarrow(chunks: seq<ChunkPlanner.Chunk>, min: int, max: int, span: int, t0: W.Target)
    requires ChunkPlanner.Covers(chunks, min, max, span) && 0 < span <= ChunkPlanner.MAX64
    requires ChunkPlanner.Int64(min) && ChunkPlanner.Int64(max)
    ensures AllNarrow(W.Initial(ChunkPlanner.PiecesOf(chunks), t0).chunks)
  {
    var pieces := ChunkPlanner.PiecesOf(chunks);
    W.NewChunksAt(pieces);
    PiecesAt(chunks, 0);
    forall c | 0 <= c < |pieces| ensures pieces[c].bounds.RangeBounds? && Yield.Narrow(pieces[c].bounds) {
      PiecesAt(chunks, c);
      Yield.PlannedAreNarrow(chunks, min, max, span, c);
    }
  }

  /** The same for integer chunks of a planned int64 key range, whose counters are always
      exact. */
  lemma RangeMigrationEqualsOnePass(env: P.Env, chunks: seq<ChunkPlanner.Chunk>, min: int, max: int, span: int,
                                    t0: W.Target, events: seq<W.Event>)
    requires P.WellFormed(env) && W.Consistent(env) && ChunkPlanner.Covers(chunks, min, max, span)
    requires ChunkPlanner.Int64(min) && ChunkPlanner.Int64(max) && 0 < span <= ChunkPlanner.MAX64
    requires forall i | 0 <= i < |env.table| :: |env.table[i].key| == 1 && min <= env.table[i].key[0] <= max
    ensures var s := W.Exec(env, W.Initial(ChunkPlanner.PiecesOf(chunks), t0), events);
            && AllNarrow(s.chunks)
            && (W.AllComplete(s.chunks) ==>
                  s.target == W.UpsertAll(env, t0, env.table) && W.RowsRead(s.chunks) == |env.table|)
  {
    var start := W.Initial(ChunkPlanner.PiecesOf(chunks), t0);
    RangePlanIsPlan(env, chunks, min, max, span);
    PlannedChunksAreNarrow(chunks, min, max, span, t0);
    RangeChunksStayNarrow(env, start, events);
    W.InitialInv(env, ChunkPlanner.PiecesOf(chunks), t0);
    W.SortedCutsDivide(env, t0, start, events);
    W.CompletionEqualsOnePass(env, ChunkPlanner.PiecesOf(chunks), t0, events);
  }
}
