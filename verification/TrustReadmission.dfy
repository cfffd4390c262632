/** Whether a refused report can ever be accepted: a key past the end of its overlap stays
    ACTIVE in the store, so it can rotate again and set a later end. */
module TrustReadmission {
  import opened Wrappers
  import opened Trust
  import opened TrustForest
  import opened TrustHistory

  // ----- why a key refuses a report

  /** The key refuses the report only because an overlap has ended, and can still rotate. */
  predicate Expired(k: TrustKey, at: Time) {
    k.status == Active && CheckKey(k, at) == Err(AfterRetirement)
  }

  /** The key refuses the report for a reason that no certificate removes. */
  predicate Doomed(k: TrustKey, at: Time) {
    CheckKey(k, at).Err? && !Expired(k, at)
  }

  /** The rotation ends later than the report, by its overlap or by an immediate switch. */
  predicate Readmits(c: Certificate, at: Time)
    requires c.Transition?
  {
    if c.overlapUntil != 0 then at <= c.overlapUntil
    else !Scheduled(c) && (Start(c) == 0 || at <= Start(c))
  }

  /** A rotation by a key past its overlap makes it accept the report exactly if it ends later. */
  lemma OutgoingReadmits(k: TrustKey, c: Certificate, at: Time)
    requires c.Transition? && Expired(k, at)
    ensures CheckKey(Outgoing(k, c), at).Ok? <==> Readmits(c, at)
  {
  }

  lemma OutgoingStaysDoomed(k: TrustKey, c: Certificate, at: Time)
    requires c.Transition? && k.status == Active && Doomed(k, at)
    ensures Doomed(Outgoing(k, c), at)
  {
  }

  /** In a sane store a report is accepted exactly if its key vouches for it. */
  lemma AcceptedIffVouched(s: Store, m: Manifest, k: TrustKey)
    requires Sane(s) && k in s.keys && Matches(k, m.keyID, m.fingerprint)
    ensures Verify(s.keys, m).Ok? <==> CheckKey(k, m.generatedAt).Ok?
  {
    var rank :| Grove(s.keys, rank);
    var i :| 0 <= i < |s.keys| && s.keys[i] == k;
    FindMeaning(s.keys, m.keyID, m.fingerprint, i);
    VerifyFound(s.keys, rank, m, i);
  }

  // ----- one certificate

  /** What a certificate that changes the store makes of a key. */
  function KeyAfter(c: Certificate, k: TrustKey): TrustKey {
    if c.Transition? then (if Identifies(c.from, k.keyID, k.fingerprint) then Outgoing(k, c) else k)
    else if Identifies(c.target, k.keyID, k.fingerprint) then Revoke(k, c) else k
  }

  lemma KeyAfterKeepsIdentity(c: Certificate, k: TrustKey, m: Manifest)
    ensures KeyAfter(c, k).keyID == k.keyID && KeyAfter(c, k).fingerprint == k.fingerprint
    ensures Matches(k, m.keyID, m.fingerprint) ==> Matches(KeyAfter(c, k), m.keyID, m.fingerprint)
  {
  }

  lemma KeyStays(s: Store, c: Certificate, k: TrustKey)
    requires Sane(s) && k in s.keys && Changes(s, c)
    ensures KeyAfter(c, k) in After(s, c).keys
    ensures c.Transition? && Identifies(c.from, k.keyID, k.fingerprint) ==> k.status == Active
  {
    var rank :| Grove(s.keys, rank);
    var i :| 0 <= i < |s.keys| && s.keys[i] == k;
    if c.Transition? {
      TransitionOutcome(s, c);
      var f := Find(s.keys, c.from.keyID, c.from.fingerprint).value;
      IdentifiesFound(s.keys, c.from, i, f);
      RotatedMembers(s.keys, f, c);
      assert i != f ==> k != s.keys[f];
    } else {
      RevocationOutcome(s, c);
      var t := Find(s.keys, c.target.keyID, c.target.fingerprint).value;
      IdentifiesFound(s.keys, c.target, i, t);
      var after := s.keys[t := Revoke(s.keys[t], c)];
      assert after[i] == KeyAfter(c, k);
    }
  }

  /** A refused report is accepted after a certificate if and only if that is a rotation by
      its own key, past its overlap and not revoked, that ends later than the report. */
  lemma ReadmittedIff(s: Store, c: Certificate, m: Manifest, k: TrustKey)
    requires Sane(s) && k in s.keys && Matches(k, m.keyID, m.fingerprint)
    requires Verify(s.keys, m).Err? && Changes(s, c)
    ensures Verify(After(s, c).keys, m).Ok? <==>
              && c.Transition? && Identifies(c.from, k.keyID, k.fingerprint)
              && Expired(k, m.generatedAt) && Readmits(c, m.generatedAt)
  {
    ApplyKeepsGrove(s, c);
    KeyStays(s, c, k);
    KeyAfterKeepsIdentity(c, k, m);
    AcceptedIffVouched(s, m, k);
    AcceptedIffVouched(After(s, c), m, KeyAfter(c, k));
    if c.Transition? && Identifies(c.from, k.keyID, k.fingerprint) {
      if Expired(k, m.generatedAt) {
        OutgoingReadmits(k, c, m.generatedAt);
      } else {
        OutgoingStaysDoomed(k, c, m.generatedAt);
      }
    }
  }

  // ----- any certificates

  /** Apart from its key's end, nothing speaks against the report. */
  predicate OnTime(k: TrustKey, at: Time) {
    && k.status != Pending
    && (k.parent != "" && k.notBefore != 0 ==> at >= k.notBefore)
    && (k.parent != "" && k.trustedAt != 0 ==> at >= k.trustedAt)
  }

  lemma OnTimeStays(c: Certificate, k: TrustKey, at: Time)
    requires OnTime(k, at)
    ensures OnTime(KeyAfter(c, k), at)
    ensures CheckKey(k, at).Err? && k.status == Active ==> Expired(k, at)
    ensures Expired(k, at) ==> k.status == Active
  {
  }

  /** The certificate changes the store as a rotation by this key that ends later. */
  predicate ReadmittedBy(s: Store, c: Certificate, id: string, fingerprint: string, at: Time) {
    Changes(s, c) && c.Transition? && Identifies(c.from, id, fingerprint) && Readmits(c, at)
  }

  predicate SomeReadmits(s: Store, cs: seq<Certificate>, id: string, fingerprint: string, at: Time)
    decreases |cs|
  {
    cs != [] && (ReadmittedBy(s, cs[0], id, fingerprint, at) || SomeReadmits(After(s, cs[0]), cs[1..], id, fingerprint, at))
  }

  ghost predicate AlwaysRefused(s: Store, cs: seq<Certificate>, m: Manifest) {
    forall n | 0 <= n <= |cs| :: RefusedAfter(s, cs, n, m)
  }

  ghost predicate RefusedAfter(s: Store, cs: seq<Certificate>, n: nat, m: Manifest)
    requires n <= |cs|
  {
    Verify(ApplyAll(s, cs[..n]).keys, m).Err?
  }

  lemma RefusedStep(s: Store, cs: seq<Certificate>, m: Manifest)
    requires cs != []
    ensures AlwaysRefused(s, cs, m) <==> Verify(s.keys, m).Err? && AlwaysRefused(After(s, cs[0]), cs[1..], m)
  {
    var s', rest := After(s, cs[0]), cs[1..];
    assert ApplyAll(s, cs[..0]) == s;
    forall n | 0 <= n <= |rest| ensures RefusedAfter(s', rest, n, m) <==> RefusedAfter(s, cs, n + 1, m) {
      assert cs[..n + 1][1..] == rest[..n];
    }
    if AlwaysRefused(s, cs, m) {
      assert RefusedAfter(s, cs, 0, m);
    }
    if Verify(s.keys, m).Err? && AlwaysRefused(s', rest, m) {
      forall n | 0 <= n <= |cs| ensures RefusedAfter(s, cs, n, m) {
        assert n > 0 ==> RefusedAfter(s', rest, n - 1, m);
      }
    }
  }

  /** A report refused only for the end of its key stays refused throughout a sequence of
      certificates if and only if none of those that take effect is a rotation by its key
      that ends later. */
  lemma {:induction false} StaysRefusedIff(s: Store, cs: seq<Certificate>, m: Manifest, k: TrustKey)
    requires Sane(s) && k in s.keys && Matches(k, m.keyID, m.fingerprint)
    requires OnTime(k, m.generatedAt) && Verify(s.keys, m).Err?
    ensures AlwaysRefused(s, cs, m) <==> !SomeReadmits(s, cs, k.keyID, k.fingerprint, m.generatedAt)
    decreases |cs|
  {
    if cs == [] {
      assert cs[..0] == [];
    } else {
      RefusedStep(s, cs, m);
      StepRefused(s, cs[0], m, k);
      if Changes(s, cs[0]) {
        var s', k' := After(s, cs[0]), KeyAfter(cs[0], k);
        if ReadmittedBy(s, cs[0], k.keyID, k.fingerprint, m.generatedAt) {
          NowAccepted(s', cs[1..], m);
        } else {
          StaysRefusedIff(s', cs[1..], m, k');
        }
      } else {
        StaysRefusedIff(s, cs[1..], m, k);
      }
    }
  }

  lemma NowAccepted(s: Store, cs: seq<Certificate>, m: Manifest)
    requires Verify(s.keys, m).Ok?
    ensures !AlwaysRefused(s, cs, m)
  {
    assert cs[..0] == [];
    assert !RefusedAfter(s, cs, 0, m);
  }

  lemma StepRefused(s: Store, c: Certificate, m: Manifest, k: TrustKey)
    requires Sane(s) && k in s.keys && Matches(k, m.keyID, m.fingerprint)
    requires OnTime(k, m.generatedAt) && Verify(s.keys, m).Err?
    ensures !Changes(s, c) ==> After(s, c) == s
    ensures Changes(s, c) ==>
              var s', k' := After(s, c), KeyAfter(c, k);
              && Sane(s') && k' in s'.keys && Matches(k', m.keyID, m.fingerprint) && OnTime(k', m.generatedAt)
              && k'.keyID == k.keyID && k'.fingerprint == k.fingerprint
              && (Verify(s'.keys, m).Ok? <==> ReadmittedBy(s, c, k.keyID, k.fingerprint, m.generatedAt))
  {
    if Changes(s, c) {
      ApplyKeepsGrove(s, c);
      KeyStays(s, c, k);
      KeyAfterKeepsIdentity(c, k, m);
      OnTimeStays(c, k, m.generatedAt);
      AcceptedIffVouched(s, m, k);
      ReadmittedIff(s, c, m, k);
    }
  }

  // ----- for good

  lemma DoomedStays(c: Certificate, k: TrustKey, at: Time)
    requires Doomed(k, at)
    requires c.Transition? && Identifies(c.from, k.keyID, k.fingerprint) ==> k.status == Active
    ensures Doomed(KeyAfter(c, k), at)
  {
  }

  /** No certificates make a doomed report acceptable. */
  lemma {:induction false} DoomedForGood(s: Store, cs: seq<Certificate>, m: Manifest, k: TrustKey)
    requires Sane(s) && k in s.keys && Matches(k, m.keyID, m.fingerprint) && Doomed(k, m.generatedAt)
    ensures Verify(ApplyAll(s, cs).keys, m).Err?
    decreases |cs|
  {
    if cs == [] {
      AcceptedIffVouched(s, m, k);
    } else if Changes(s, cs[0]) {
      ApplyKeepsGrove(s, cs[0]);
      KeyStays(s, cs[0], k);
      KeyAfterKeepsIdentity(cs[0], k, m);
      DoomedStays(cs[0], k, m.generatedAt);
      DoomedForGood(After(s, cs[0]), cs[1..], m, KeyAfter(cs[0], k));
    } else {
      DoomedForGood(s, cs[1..], m, k);
    }
  }

  function Longest(keys: seq<TrustKey>): nat {
    if keys == [] then 0
    else
      var n, k := Longest(keys[1..]), keys[0];
      var m := if |k.keyID| > |k.fingerprint| then |k.keyID| else |k.fingerprint|;
      if m > n then m else n
  }

  lemma {:induction false} LongestBounds(keys: seq<TrustKey>)
    ensures forall k | k in keys :: |k.keyID| <= Longest(keys) && |k.fingerprint| <= Longest(keys)
  {
    if keys != [] {
      LongestBounds(keys[1..]);
    }
  }

  /** A rotation of the key to a fresh one, with an overlap that covers the time. */
  function Extension(keys: seq<TrustKey>, k: TrustKey, at: Time): Certificate {
    var name := seq(Longest(keys) + 1, _ => 'k');
    Transition(KeyDocument(k.keyID, k.fingerprint), KeyDocument(name, name), 1, 0, if at < 1 then 1 else at, "", true, "")
  }

  lemma ExtensionIsFresh(keys: seq<TrustKey>, k: TrustKey, at: Time)
    requires Named(keys) && k in keys
    ensures FreshRotation(keys, Extension(keys, k, at), k) && Readmits(Extension(keys, k, at), at)
  {
    var c := Extension(keys, k, at);
    LongestBounds(keys);
    assert |c.to.keyID| == |c.to.fingerprint| == Longest(keys) + 1;
  }

  /** Whether a refused report can ever be accepted again: if and only if its key has only
      reached the end of an overlap. */
  lemma CanBeReadmittedIff(s: Store, m: Manifest, k: TrustKey)
    requires Sane(s) && k in s.keys && Matches(k, m.keyID, m.fingerprint) && Verify(s.keys, m).Err?
    ensures (exists cs :: Verify(ApplyAll(s, cs).keys, m).Ok?) <==> Expired(k, m.generatedAt)
  {
    AcceptedIffVouched(s, m, k);
    if Expired(k, m.generatedAt) {
      var c := Extension(s.keys, k, m.generatedAt);
      ExtensionIsFresh(s.keys, k, m.generatedAt);
      FreshRotationAccepted(s, c, k);
      ReadmittedIff(s, c, m, k);
      ApplyAllOne(s, [c]);
    } else {
      forall cs ensures Verify(ApplyAll(s, cs).keys, m).Err? {
        DoomedForGood(s, cs, m, k);
      }
    }
  }

  // ----- an example

  const TO_SECOND := Transition(KeyDocument("first", "f1"), KeyDocument("second", "f2"), 2, 0, 5, "rotation", true, "d")
  const TO_THIRD := Transition(KeyDocument("first", "f1"), KeyDocument("third", "f3"), 6, 0, 9, "rotation", true, "e")
  const LATE := Manifest("first", "f1", 7)

  /** The report is signed at 7 by a key whose overlap ended at 5. A second rotation by the
      same key, until 9, makes it acceptable. */
  lemma ReadmissionWitness()
    ensures var s := After(NewStore(FIRST_KEY, 1), TO_SECOND);
            Verify(s.keys, LATE).Err? && Verify(After(s, TO_THIRD).keys, LATE).Ok?
  {
    var s0 := NewStore(FIRST_KEY, 1);
    var first := s0.keys[0];
    NewStoreIsForest(FIRST_KEY, 1);
    NamesDiffer();
    FreshRotationAccepted(s0, TO_SECOND, first);
    ApplyKeepsGrove(s0, TO_SECOND);
    KeyStays(s0, TO_SECOND, first);
    var s, old1 := After(s0, TO_SECOND), KeyAfter(TO_SECOND, first);
    AcceptedIffVouched(s, LATE, old1);
    ThirdIsFresh(s0, s);
    FreshRotationAccepted(s, TO_THIRD, old1);
    ReadmittedIff(s, TO_THIRD, LATE, old1);
  }

  lemma NamesDiffer()
    ensures "first" != "second" && "first" != "third" && "second" != "third"
    ensures "f1" != "f2" && "f1" != "f3" && "f2" != "f3"
  {
    assert "first"[0] != "second"[0] && "first"[0] != "third"[0] && "second"[0] != "third"[0];
    assert "f1"[1] != "f2"[1] && "f1"[1] != "f3"[1] && "f2"[1] != "f3"[1];
  }

  lemma ThirdIsFresh(s0: Store, s: Store)
    requires s0 == NewStore(FIRST_KEY, 1) && Changes(s0, TO_SECOND) && s == After(s0, TO_SECOND)
    ensures forall o | o in s.keys :: o.keyID != "third" && o.fingerprint != "f3"
  {
    NamesDiffer();
    NamedIsNormal(s0.keys);
    TransitionOutcome(s0, TO_SECOND);
    RotatedMembers(s0.keys, 0, TO_SECOND);
  }
}
