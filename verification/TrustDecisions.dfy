/** What each decision of a trust store depends on, spelled out over the fields of its keys and
    of the certificate or report: when it is accepted, what it changes, and which error every
    refusal gives. */
module TrustDecisions {
  import opened Wrappers
  import opened Trust
  import opened TrustForest
  import TrustHistory
  import TrustReadmission

  // ----- lookups

  /** An id and a fingerprint name a key: by the id, and then a fingerprint that is given must
      agree; without an id by the fingerprint. */
  predicate Names(id: string, fingerprint: string, k: TrustKey) {
    || (id != "" && k.keyID == id && (fingerprint == "" || k.fingerprint == fingerprint))
    || (id == "" && fingerprint != "" && k.fingerprint == fingerprint)
  }

  /** The id names the key, but the fingerprint is that of another. */
  predicate Contradicts(id: string, fingerprint: string, k: TrustKey) {
    id != "" && k.keyID == id && fingerprint != "" && k.fingerprint != fingerprint
  }

  lemma NamesIsMatches(id: string, fingerprint: string, k: TrustKey)
    ensures Names(id, fingerprint, k) <==> Matches(k, id, fingerprint)
  {
  }

  /** The scan ends at a named key, at a contradiction, or at the end of the list. */
  lemma {:induction false} LookupOutcome(keys: seq<TrustKey>, id: string, fingerprint: string)
    ensures match Find(keys, id, fingerprint)
            case Ok(i) => i < |keys| && Names(id, fingerprint, keys[i])
            case Err(e) =>
              if e == FingerprintDiffers then exists i :: 0 <= i < |keys| && Contradicts(id, fingerprint, keys[i])
              else e == NotPresent && forall i | 0 <= i < |keys| ::
                     !Names(id, fingerprint, keys[i]) && !Contradicts(id, fingerprint, keys[i])
  {
    if keys != [] {
      LookupOutcome(keys[1..], id, fingerprint);
      match Find(keys[1..], id, fingerprint)
      case Ok(_) =>
      case Err(e) =>
        if e == FingerprintDiffers {
          var j :| 0 <= j < |keys[1..]| && Contradicts(id, fingerprint, keys[1..][j]);
          assert keys[1..][j] == keys[j + 1];
        } else {
          assert forall i | 0 < i < |keys| :: keys[i] == keys[1..][i - 1];
        }
    }
  }

  lemma SaneFacts(s: Store)
    requires Sane(s)
    ensures Sound(s.keys) && CheckedKeys(s.keys) == Ok(s.keys)
  {
    CheckedMeaning(s.keys);
  }

  lemma LookupFinds(keys: seq<TrustKey>, id: string, fingerprint: string, k: TrustKey) returns (i: nat)
    requires Distinct(keys) && k in keys && Names(id, fingerprint, k)
    ensures i < |keys| && keys[i] == k && Find(keys, id, fingerprint) == Ok(i)
  {
    i :| 0 <= i < |keys| && keys[i] == k;
    FindMeaning(keys, id, fingerprint, i);
  }

  ghost predicate NoneNamed(keys: seq<TrustKey>, id: string, fingerprint: string) {
    forall k | k in keys :: !Names(id, fingerprint, k)
  }

  lemma LookupFails(keys: seq<TrustKey>, id: string, fingerprint: string)
    requires NoneNamed(keys, id, fingerprint)
    ensures Find(keys, id, fingerprint)
            == if exists k :: k in keys && Contradicts(id, fingerprint, k) then Err(FingerprintDiffers) else Err(NotPresent)
  {
    LookupOutcome(keys, id, fingerprint);
    if Find(keys, id, fingerprint) == Err(FingerprintDiffers) {
      var i :| 0 <= i < |keys| && Contradicts(id, fingerprint, keys[i]);
      assert keys[i] in keys;
    }
  }

  // ----- reports

  /** When a report is accepted, over the fields of the key that signed it, and the key that is
      returned with it. */
  lemma ReportAcceptedIff(s: Store, m: Manifest, k: TrustKey)
    requires Sane(s) && k in s.keys && Names(m.keyID, m.fingerprint, k)
    ensures Verify(s.keys, m).Ok? <==>
              && k.status != Revoked
              && (k.status == Pending ==> k.notBefore != 0 && m.generatedAt >= k.notBefore)
              && (k.parent != "" && k.notBefore != 0 ==> m.generatedAt >= k.notBefore)
              && (k.parent != "" && k.trustedAt != 0 ==> m.generatedAt >= k.trustedAt)
              && (k.status == Retired && k.retiredAt != 0 ==> m.generatedAt <= k.retiredAt)
              && (k.status == Active && k.retireAfter != 0 ==> m.generatedAt <= k.retireAfter)
    ensures Verify(s.keys, m).Ok? ==>
              Verify(s.keys, m).value.key == k.(status := if k.status == Pending then Active else k.status)
  {
    ReportDecided(s, m, k);
  }

  /** Which error a refused report gives: the first of these that applies. */
  lemma ReportRefusedBecause(s: Store, m: Manifest, k: TrustKey)
    requires Sane(s) && k in s.keys && Names(m.keyID, m.fingerprint, k) && Verify(s.keys, m).Err?
    ensures Verify(s.keys, m).error
            == if k.status == Revoked then KeyRevoked
               else if k.status == Pending && (k.notBefore == 0 || m.generatedAt < k.notBefore) then BeforeActivation
               else if k.parent != "" && ((k.notBefore != 0 && m.generatedAt < k.notBefore)
                                          || (k.trustedAt != 0 && m.generatedAt < k.trustedAt)) then BeforeTransition
               else AfterRetirement
  {
    ReportDecided(s, m, k);
  }

  lemma ReportDecided(s: Store, m: Manifest, k: TrustKey)
    requires Sane(s) && k in s.keys && Names(m.keyID, m.fingerprint, k)
    ensures match CheckKey(k, m.generatedAt)
            case Ok(e) => Verify(s.keys, m).Ok? && Verify(s.keys, m).value.key == e
            case Err(e) => Verify(s.keys, m) == Err(e)
  {
    var rank :| Grove(s.keys, rank);
    var i := LookupFinds(s.keys, m.keyID, m.fingerprint, k);
    VerifyFound(s.keys, rank, m, i);
  }

  /** A report by a key that is not in the store is refused. */
  lemma ReportOfUnknownKey(s: Store, m: Manifest)
    requires Sane(s) && NoneNamed(s.keys, m.keyID, m.fingerprint)
    ensures Verify(s.keys, m) == Err(if exists k :: k in s.keys && Contradicts(m.keyID, m.fingerprint, k)
                                     then FingerprintDiffers else NotPresent)
  {
    SaneFacts(s);
    LookupFails(s.keys, m.keyID, m.fingerprint);
  }

  /** Whether a refused report can ever be accepted: exactly if its key is still active and
      was in force when the report was signed. */
  lemma ReadmissibleIff(s: Store, m: Manifest, k: TrustKey)
    requires Sane(s) && k in s.keys && Names(m.keyID, m.fingerprint, k) && Verify(s.keys, m).Err?
    ensures (exists cs :: Verify(ApplyAll(s, cs).keys, m).Ok?) <==>
              && k.status == Active
              && (k.parent != "" && k.notBefore != 0 ==> m.generatedAt >= k.notBefore)
              && (k.parent != "" && k.trustedAt != 0 ==> m.generatedAt >= k.trustedAt)
  {
    TrustReadmission.CanBeReadmittedIff(s, m, k);
    ReportRefusedBecause(s, m, k);
    ReportDecided(s, m, k);
  }

  // ----- lists of keys

  /** Which id a key document goes by: its own, or a name made of its fingerprint. */
  ghost predicate GoesBy(id: string, own: string, fingerprint: string) {
    && (own != "" ==> id == own)
    && (own == "" && |fingerprint| <= 16 ==> id == "ed25519-" + fingerprint)
    && (own == "" && |fingerprint| > 16 ==> id == "ed25519-" + fingerprint[..16])
  }

  /** A list of keys is valid exactly if all keys are readable with a known status, one is
      active, and no two share an id or a fingerprint; missing ids are filled in. */
  lemma ListAcceptedIff(keys: seq<TrustKey>, ids: seq<string>)
    requires |ids| == |keys| && forall i | 0 <= i < |keys| :: GoesBy(ids[i], keys[i].keyID, keys[i].fingerprint)
    ensures CheckedKeys(keys).Ok? <==>
              && (forall i | 0 <= i < |keys| ::
                    keys[i].decodes && (keys[i].status == Pending || keys[i].status == Active
                                        || keys[i].status == Retired || keys[i].status == Revoked))
              && (exists i :: 0 <= i < |keys| && keys[i].status == Active)
              && (forall i, j | 0 <= i < j < |keys| :: ids[i] != ids[j] && keys[i].fingerprint != keys[j].fingerprint)
    ensures CheckedKeys(keys).Err? ==> CheckedKeys(keys).error == Invalid
    ensures CheckedKeys(keys).Ok? ==>
              && |CheckedKeys(keys).value| == |keys|
              && forall i | 0 <= i < |keys| :: CheckedKeys(keys).value[i] == keys[i].(keyID := ids[i])
  {
    forall i | 0 <= i < |keys| ensures Normalize(keys)[i] == keys[i].(keyID := ids[i]) {
    }
  }

  lemma NewStoreHolds(root: KeyDocument, at: Time, id: string)
    requires GoesBy(id, root.keyID, root.fingerprint)
    ensures NewStore(root, at) == Store(at, [TrustKey(id, root.fingerprint, Active, at, 0, 0, 0, 0, "", "", "", "", true)])
  {
  }

  // ----- sorting

  /** The keys trusted at one time, in order. */
  function TrustedAt(keys: seq<TrustKey>, at: Time): seq<TrustKey> {
    if keys == [] then []
    else if keys[0].trustedAt == at then [keys[0]] + TrustedAt(keys[1..], at)
    else TrustedAt(keys[1..], at)
  }

  lemma {:induction false} TrustedAtAppend(a: seq<TrustKey>, b: seq<TrustKey>, at: Time)
    ensures TrustedAt(a + b, at) == TrustedAt(a, at) + TrustedAt(b, at)
  {
    if a == [] {
      assert a + b == b;
    } else {
      assert (a + b)[1..] == a[1..] + b;
      TrustedAtAppend(a[1..], b, at);
    }
  }

  lemma {:induction false} InsertIsStable(keys: seq<TrustKey>, k: TrustKey, at: Time)
    requires InTimeOrder(keys)
    ensures TrustedAt(InsertByTime(keys, k), at) == TrustedAt(keys + [k], at)
  {
    if keys == [] {
      assert keys + [k] == [k];
    } else if k.trustedAt < keys[0].trustedAt {
      TrustedAtAppend([k], keys, at);
      TrustedAtAppend(keys, [k], at);
      if at == k.trustedAt {
        NoneTrustedAt(keys, at);
      }
    } else {
      assert (keys + [k])[1..] == keys[1..] + [k];
      InsertIsStable(keys[1..], k, at);
    }
  }

  lemma {:induction false} NoneTrustedAt(keys: seq<TrustKey>, at: Time)
    requires forall i | 0 <= i < |keys| :: keys[i].trustedAt != at
    ensures TrustedAt(keys, at) == []
  {
    if keys != [] {
      NoneTrustedAt(keys[1..], at);
    }
  }

  /** The sort is stable: keys trusted at the same time keep their order. */
  lemma {:induction false} SortIsStable(keys: seq<TrustKey>, at: Time)
    ensures TrustedAt(SortByTime(keys), at) == TrustedAt(keys, at)
  {
    if keys != [] {
      var front, last := keys[..|keys| - 1], keys[|keys| - 1];
      SortIsStable(front, at);
      SortOrders(front);
      InsertIsStable(SortByTime(front), last, at);
      TrustedAtAppend(SortByTime(front), [last], at);
      TrustedAtAppend(front, [last], at);
      assert front + [last] == keys;
    }
  }

  // ----- transition certificates

  /** When a transition starts to count. */
  ghost predicate StartsAt(c: Certificate, start: Time) {
    c.Transition? && (c.notBefore == 0 ==> start == c.issuedAt) && (c.notBefore != 0 ==> start == c.notBefore)
  }

  /** A malformed certificate is refused by any store. */
  lemma MalformedTransition(s: Store, c: Certificate, start: Time)
    requires StartsAt(c, start)
    ensures c.from.fingerprint == c.to.fingerprint ==> ApplyTransition(s, c) == Err(SameKey)
    ensures c.from.fingerprint != c.to.fingerprint && start < c.issuedAt ==> ApplyTransition(s, c) == Err(NotBeforePredates)
    ensures c.from.fingerprint != c.to.fingerprint && start >= c.issuedAt && c.overlapUntil != 0 && c.overlapUntil < start ==>
              ApplyTransition(s, c) == Err(OverlapPredates)
    ensures c.from.fingerprint != c.to.fingerprint && start >= c.issuedAt && (c.overlapUntil == 0 || c.overlapUntil >= start)
              && !c.signatureOk ==>
              ApplyTransition(s, c) == Err(BadSignature)
  {
  }

  ghost predicate WellFormed(c: Certificate, start: Time) {
    && StartsAt(c, start) && c.from.fingerprint != c.to.fingerprint && start >= c.issuedAt
    && (c.overlapUntil == 0 || c.overlapUntil >= start) && c.signatureOk
  }

  /** A well-formed transition that the store does not take up. */
  lemma TransitionRefused(s: Store, c: Certificate, start: Time)
    requires Sane(s) && WellFormed(c, start)
    ensures NoneNamed(s.keys, c.from.keyID, c.from.fingerprint) ==>
              ApplyTransition(s, c) == Err(if exists k :: k in s.keys && Contradicts(c.from.keyID, c.from.fingerprint, k)
                                           then FingerprintDiffers else NotPresent)
    ensures forall f | f in s.keys && Names(c.from.keyID, c.from.fingerprint, f) && f.status != Active ::
              ApplyTransition(s, c) == Err(SourceNotActive)
  {
    SaneFacts(s);
    if NoneNamed(s.keys, c.from.keyID, c.from.fingerprint) {
      LookupFails(s.keys, c.from.keyID, c.from.fingerprint);
    }
    forall f | f in s.keys && Names(c.from.keyID, c.from.fingerprint, f) && f.status != Active
      ensures ApplyTransition(s, c) == Err(SourceNotActive)
    {
      var i := LookupFinds(s.keys, c.from.keyID, c.from.fingerprint, f);
    }
  }

  /** A transition to a key that is there already changes nothing: it is the same transition
      again, or refused. */
  lemma TransitionRepeated(s: Store, c: Certificate, start: Time, f: TrustKey, e: TrustKey)
    requires Sane(s) && WellFormed(c, start)
    requires f in s.keys && Names(c.from.keyID, c.from.fingerprint, f) && f.status == Active
    requires e in s.keys && Names(c.to.keyID, c.to.fingerprint, e)
    ensures ApplyTransition(s, c)
            == if e.parent == c.from.keyID || e.keyID == c.to.keyID then Ok(s) else Err(DifferentPath)
  {
    SaneFacts(s);
    var i := LookupFinds(s.keys, c.from.keyID, c.from.fingerprint, f);
    var j := LookupFinds(s.keys, c.to.keyID, c.to.fingerprint, e);
  }

  /** A transition to a new key under an id or a fingerprint in use is refused. */
  lemma TransitionTaken(s: Store, c: Certificate, start: Time, f: TrustKey, id: string)
    requires Sane(s) && WellFormed(c, start) && GoesBy(id, c.to.keyID, c.to.fingerprint)
    requires f in s.keys && Names(c.from.keyID, c.from.fingerprint, f) && f.status == Active
    requires NoneNamed(s.keys, c.to.keyID, c.to.fingerprint)
    requires exists k :: k in s.keys && (k.keyID == id || k.fingerprint == c.to.fingerprint)
    ensures ApplyTransition(s, c) == Err(Invalid)
  {
    SaneFacts(s);
    var i := LookupFinds(s.keys, c.from.keyID, c.from.fingerprint, f);
    LookupFails(s.keys, c.to.keyID, c.to.fingerprint);
    CheckedMeaning(Rotated(s.keys, i, c));
    if CheckedKeys(Rotated(s.keys, i, c)).Ok? {
      IncomingIsNew(s.keys, i, c);
    }
  }

  /** A transition to a new key is accepted: what happens to its issuer, what enters, and that
      nothing else changes. */
  lemma TransitionAccepted(s: Store, c: Certificate, start: Time, f: TrustKey, id: string)
    requires Sane(s) && WellFormed(c, start) && GoesBy(id, c.to.keyID, c.to.fingerprint)
    requires f in s.keys && Names(c.from.keyID, c.from.fingerprint, f) && f.status == Active
    requires NoneNamed(s.keys, c.to.keyID, c.to.fingerprint)
    requires forall k | k in s.keys :: k.keyID != id && k.fingerprint != c.to.fingerprint
    ensures ApplyTransition(s, c).Ok?
    ensures var s' := ApplyTransition(s, c).value;
            var out := if c.overlapUntil != 0 then f.(retireAfter := c.overlapUntil)
                       else if start > c.issuedAt then f
                       else f.(status := Retired, retiredAt := start, reason := c.reason);
            var incoming := TrustKey(id, c.to.fingerprint, if start > c.issuedAt then Pending else Active,
                                     c.issuedAt, start, 0, 0, 0, "", c.from.keyID, c.digest, "", true);
            && s'.updatedAt == c.issuedAt
            && forall k :: k in s'.keys <==> k == incoming || k == out || (k in s.keys && k != f)
  {
    SaneFacts(s);
    var i := LookupFinds(s.keys, c.from.keyID, c.from.fingerprint, f);
    LookupFails(s.keys, c.to.keyID, c.to.fingerprint);
    NewcomerFits(s.keys, i, c, id);
    RotatedMembers(s.keys, i, c);
  }

  lemma {:induction false} NormalizeInsert(keys: seq<TrustKey>, k: TrustKey)
    ensures Normalize(InsertByTime(keys, k)) == InsertByTime(Normalize(keys), NormalizeKey(k))
  {
    if keys == [] {
    } else if k.trustedAt < keys[0].trustedAt {
      assert Normalize([k] + keys) == [NormalizeKey(k)] + Normalize(keys);
    } else {
      NormalizeInsert(keys[1..], k);
      assert Normalize(keys)[1..] == Normalize(keys[1..]);
      assert Normalize([keys[0]] + InsertByTime(keys[1..], k)) == [NormalizeKey(keys[0])] + Normalize(InsertByTime(keys[1..], k));
    }
  }

  lemma {:induction false} NormalizeSort(keys: seq<TrustKey>)
    ensures Normalize(SortByTime(keys)) == SortByTime(Normalize(keys))
  {
    if keys != [] {
      var front := keys[..|keys| - 1];
      NormalizeSort(front);
      NormalizeInsert(SortByTime(front), keys[|keys| - 1]);
      assert Normalize(keys)[..|keys| - 1] == Normalize(front);
    }
  }

  lemma NewcomerFits(keys: seq<TrustKey>, f: nat, c: Certificate, id: string)
    requires Sound(keys) && c.Transition? && f < |keys| && keys[f].status == Active && GoesBy(id, c.to.keyID, c.to.fingerprint)
    requires forall k | k in keys :: k.keyID != id && k.fingerprint != c.to.fingerprint
    ensures CheckedKeys(Rotated(keys, f, c)).Ok?
  {
    var rest := keys[f := Outgoing(keys[f], c)];
    var all := Normalize(rest + [Incoming(c)]);
    assert all == rest + [Incoming(c).(keyID := id)];
    assert all[f].status == Active || all[|keys|].status == Active;
    assert forall i | 0 <= i < |keys| :: keys[i] in keys;
    SortKeepsSound(all);
    NormalizeSort(rest + [Incoming(c)]);
    SameHealth(Rotated(keys, f, c));
    CheckedMeaning(Rotated(keys, f, c));
  }

  lemma SameHealth(keys: seq<TrustKey>)
    requires Healthy(Normalize(keys))
    ensures Healthy(keys)
  {
    var a :| 0 <= a < |Normalize(keys)| && Normalize(keys)[a].status == Active;
    assert keys[a].status == Active;
    assert forall i | 0 <= i < |keys| :: Readable(Normalize(keys)[i]) ==> Readable(keys[i]);
  }

  // ----- revocation certificates

  lemma MalformedRevocation(s: Store, c: Certificate)
    requires c.Revocation?
    ensures c.reason == "" ==> ApplyRevocation(s, c) == Err(ReasonRequired)
    ensures c.reason != "" && !c.signatureOk ==> ApplyRevocation(s, c) == Err(BadSignature)
  {
  }

  /** A well-formed revocation of or by a key that is not there, or by one that may not. */
  lemma RevocationRefused(s: Store, c: Certificate)
    requires Sane(s) && c.Revocation? && c.reason != "" && c.signatureOk
    ensures NoneNamed(s.keys, c.issuer.keyID, c.issuer.fingerprint) ==>
              ApplyRevocation(s, c) == Err(if exists k :: k in s.keys && Contradicts(c.issuer.keyID, c.issuer.fingerprint, k)
                                           then FingerprintDiffers else NotPresent)
    ensures forall i | i in s.keys && Names(c.issuer.keyID, c.issuer.fingerprint, i) ::
              if i.status != Active then ApplyRevocation(s, c) == Err(IssuerNotActive)
              else NoneNamed(s.keys, c.target.keyID, c.target.fingerprint) ==>
                     ApplyRevocation(s, c)
                     == Err(if exists k :: k in s.keys && Contradicts(c.target.keyID, c.target.fingerprint, k)
                            then FingerprintDiffers else NotPresent)
  {
    SaneFacts(s);
    if NoneNamed(s.keys, c.issuer.keyID, c.issuer.fingerprint) {
      LookupFails(s.keys, c.issuer.keyID, c.issuer.fingerprint);
    }
    if NoneNamed(s.keys, c.target.keyID, c.target.fingerprint) {
      LookupFails(s.keys, c.target.keyID, c.target.fingerprint);
    }
    forall i | i in s.keys && Names(c.issuer.keyID, c.issuer.fingerprint, i)
      ensures if i.status != Active then ApplyRevocation(s, c) == Err(IssuerNotActive)
              else NoneNamed(s.keys, c.target.keyID, c.target.fingerprint) ==>
                     ApplyRevocation(s, c).Err?
                     && ApplyRevocation(s, c).error == Find(s.keys, c.target.keyID, c.target.fingerprint).error
    {
      var at := LookupFinds(s.keys, c.issuer.keyID, c.issuer.fingerprint, i);
    }
  }

  /** A well-formed revocation by an active key: repeated, refused, or carried out. It is
      refused if it would leave no active key. */
  lemma RevocationDecided(s: Store, c: Certificate, i: TrustKey, t: TrustKey)
    requires Sane(s) && c.Revocation? && c.reason != "" && c.signatureOk
    requires i in s.keys && Names(c.issuer.keyID, c.issuer.fingerprint, i) && i.status == Active
    requires t in s.keys && Names(c.target.keyID, c.target.fingerprint, t)
    ensures t.status == Revoked ==>
              ApplyRevocation(s, c) == if t.revocation == c.digest then Ok(s) else Err(RevokedDifferently)
    ensures t.status != Revoked && (forall k | k in s.keys && k != t :: k.status != Active) ==>
              ApplyRevocation(s, c) == Err(Invalid)
    ensures t.status != Revoked && (exists k :: k in s.keys && k != t && k.status == Active) ==>
              && ApplyRevocation(s, c).Ok?
              && var s' := ApplyRevocation(s, c).value;
                 && s'.updatedAt == c.revokedAt && |s'.keys| == |s.keys|
                 && forall j | 0 <= j < |s.keys| ::
                      s'.keys[j] == if s.keys[j] != t then s.keys[j]
                                    else t.(status := Revoked, revokedAt := c.revokedAt, reason := c.reason, revocation := c.digest)
  {
    SaneFacts(s);
    var at := LookupFinds(s.keys, c.issuer.keyID, c.issuer.fingerprint, i);
    var to := LookupFinds(s.keys, c.target.keyID, c.target.fingerprint, t);
    RevokedList(s.keys, to, Revoke(t, c));
  }

  lemma RevokedList(keys: seq<TrustKey>, t: nat, gone: TrustKey)
    requires Sound(keys) && t < |keys| && gone.status == Revoked && gone.decodes
    requires gone.keyID == keys[t].keyID && gone.fingerprint == keys[t].fingerprint
    ensures CheckedKeys(keys[t := gone])
            == if exists k :: k in keys && k != keys[t] && k.status == Active then Ok(keys[t := gone]) else Err(Invalid)
  {
    var after := keys[t := gone];
    CheckedMeaning(after);
    if k :| k in keys && k != keys[t] && k.status == Active {
      var i :| 0 <= i < |keys| && keys[i] == k;
      assert after[i].status == Active;
    } else {
      forall i | 0 <= i < |after| ensures after[i].status != Active {
        if i != t {
          assert keys[i] in keys;
        }
      }
    }
  }
}
