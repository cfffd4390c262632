/** What a batch of keyed upserts leaves in the target. */
module Upserts {
  import opened Wrappers
  import opened Keys
  import opened Reading
  import Transform
  import P = Pipeline
  import opened Worker

  /** The key of an image holds the values of the target's key columns, in their order. */
  lemma KeyMeaning(env: P.Env, image: Transform.Row)
    ensures |TargetKey(env, image)| == |env.targetPK|
    ensures forall i | 0 <= i < |env.targetPK| ::
              TargetKey(env, image)[i] == if env.targetPK[i] < |image| then image[env.targetPK[i]] else Transform.Null
  {
  }

  /** The row has an image, and this is its key. */
  ghost predicate Writes(env: P.Env, row: Keyed<Transform.Row>, k: Transform.Row) {
    P.Image(env, row).Ok? && TargetKey(env, P.Image(env, row).value) == k
  }

  /** The last row of the batch that writes this key. */
  ghost predicate LastWriter(env: P.Env, rows: seq<Keyed<Transform.Row>>, k: Transform.Row, i: nat) {
    i < |rows| && Writes(env, rows[i], k) && forall j | i < j < |rows| :: !Writes(env, rows[j], k)
  }

  lemma {:induction false} UntouchedKey(env: P.Env, t: Target, rows: seq<Keyed<Transform.Row>>, k: Transform.Row)
    requires forall j | 0 <= j < |rows| :: !Writes(env, rows[j], k)
    ensures var t' := UpsertAll(env, t, rows); (k in t' <==> k in t) && (k in t ==> t'[k] == t[k])
    decreases |rows|
  {
    if rows != [] {
      var rest := rows[1..];
      assert !Writes(env, rows[0], k) && forall j | 0 <= j < |rest| :: rest[j] == rows[j + 1];
      UntouchedKey(env, Upsert(env, t, rows[0]), rest, k);
    }
  }

  /** Under every key the target holds the image of the last row of the batch that has this
      key, and what it held before if no row has it. */
  lemma {:induction false} LastWriteWins(env: P.Env, t: Target, rows: seq<Keyed<Transform.Row>>, k: Transform.Row, i: nat)
    ensures LastWriter(env, rows, k, i) ==>
              var t' := UpsertAll(env, t, rows); k in t' && P.Image(env, rows[i]) == Ok(t'[k])
    ensures (forall j | 0 <= j < |rows| :: !Writes(env, rows[j], k)) ==>
              var t' := UpsertAll(env, t, rows); (k in t' <==> k in t) && (k in t ==> t'[k] == t[k])
    decreases |rows|
  {
    if forall j | 0 <= j < |rows| :: !Writes(env, rows[j], k) {
      UntouchedKey(env, t, rows, k);
    } else if LastWriter(env, rows, k, i) {
      var rest, next := rows[1..], Upsert(env, t, rows[0]);
      assert forall j | 0 <= j < |rest| :: rest[j] == rows[j + 1];
      if i == 0 {
        UntouchedKey(env, next, rest, k);
      } else {
        LastWriteWins(env, next, rest, k, i - 1);
      }
    }
  }

  /** A write request applies all rows of the batch in hand; a row of the last request can be
      applied once more at any later time, whatever has become of its attempt. Nothing else
      changes the target. */
  lemma WritesAndLateRows(env: P.Env, s: State, e: Event)
    ensures e.Write? && Live(s, e.attempt) && s.attempts[e.attempt].run.writer.Writing? ==>
              Next(env, s, e).target == UpsertAll(env, s.target, s.attempts[e.attempt].run.writer.batch.rows)
    ensures e.Land? && e.attempt < |s.attempts| && e.row < |s.attempts[e.attempt].run.issued| ==>
              Next(env, s, e) == s.(target := Upsert(env, s.target, s.attempts[e.attempt].run.issued[e.row]))
    ensures !e.Write? && !e.Land? ==> Next(env, s, e).target == s.target
  {
  }
}
