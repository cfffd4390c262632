/** What certificates leave of the past: reports accepted before a rotation or revocation,
    and keys that entered with a scheduled activation. */
module TrustHistory {
  import opened Wrappers
  import opened Trust
  import opened TrustForest

  // ----- reports signed before a rotation

  /** The last time a rotation leaves to its outgoing key, if it sets one. */
  function Cutoff(c: Certificate): Option<Time>
    requires c.Transition?
  {
    if c.overlapUntil != 0 then Some(c.overlapUntil)
    else if Scheduled(c) || Start(c) == 0 then None
    else Some(Start(c))
  }

  predicate Within(at: Time, cutoff: Option<Time>) {
    cutoff.Some? ==> at <= cutoff.value
  }

  /** A rotation takes from its outgoing key exactly the reports after the cutoff. */
  lemma OutgoingKeyKeepsHistory(k: TrustKey, c: Certificate, at: Time)
    requires c.Transition? && k.status == Active && CheckKey(k, at).Ok?
    ensures CheckKey(Outgoing(k, c), at).Ok? <==> Within(at, Cutoff(c))
  {
  }

  /** The parent links a walk follows survive in the bigger store. */
  ghost predicate KeepsLinks(keys: seq<TrustKey>, keys': seq<TrustKey>) {
    forall k | k in keys :: exists k' :: k' in keys' && k'.keyID == k.keyID && k'.parent == k.parent
  }

  lemma {:induction false} WalkSurvives(keys: seq<TrustKey>, keys': seq<TrustKey>, parent: string, seen: set<string>)
    requires Distinct(keys) && Distinct(keys') && KeepsLinks(keys, keys') && Walk(keys, parent, seen).Ok?
    ensures Walk(keys', parent, seen) == Walk(keys, parent, seen)
    decreases |Ids(keys) - seen|
  {
    if parent != "" {
      var i := Find(keys, parent, "").value;
      assert keys[i] in keys;
      var k' :| k' in keys' && k'.keyID == keys[i].keyID && k'.parent == keys[i].parent;
      var j :| 0 <= j < |keys'| && keys'[j] == k';
      FindMeaning(keys', parent, "", j);
      WalkShrinks(keys, i, seen);
      WalkSurvives(keys, keys', keys[i].parent, seen + {parent});
    }
  }

  lemma VerifyAt(keys: seq<TrustKey>, m: Manifest, i: nat)
    requires Sound(keys) && i < |keys| && Matches(keys[i], m.keyID, m.fingerprint)
    ensures Verify(keys, m) ==
            match CheckKey(keys[i], m.generatedAt)
            case Err(e) => Err(e)
            case Ok(k) =>
              match Walk(keys, keys[i].parent, {keys[i].keyID})
              case Err(e) => Err(e)
              case Ok(up) => Ok(Verified(k, Reverse([keys[i].keyID] + up)))
  {
    CheckedMeaning(keys);
    FindMeaning(keys, m.keyID, m.fingerprint, i);
    CheckKeyKeepsIdentity(keys[i], m.generatedAt);
  }

  /** An accepted report is vouched for by a key of the store. */
  lemma AcceptedKey(keys: seq<TrustKey>, m: Manifest) returns (i: nat)
    requires Named(keys) && Verify(keys, m).Ok?
    ensures Sound(keys) && i < |keys| && Matches(keys[i], m.keyID, m.fingerprint)
    ensures CheckKey(keys[i], m.generatedAt).Ok? && Walk(keys, keys[i].parent, {keys[i].keyID}).Ok?
    ensures AcceptedAs(keys, m, keys[i].keyID, keys[i].fingerprint,
                       Reverse([keys[i].keyID] + Walk(keys, keys[i].parent, {keys[i].keyID}).value))
  {
    CheckedMeaning(keys);
    NamedIsNormal(keys);
    i := Find(keys, m.keyID, m.fingerprint).value;
    CheckKeyKeepsIdentity(keys[i], m.generatedAt);
  }

  /** The report is accepted on behalf of this key, with this trust path. */
  ghost predicate AcceptedAs(keys: seq<TrustKey>, m: Manifest, id: string, fingerprint: string, path: seq<string>) {
    && Verify(keys, m).Ok? && Verify(keys, m).value.path == path
    && Verify(keys, m).value.key.keyID == id && Verify(keys, m).value.key.fingerprint == fingerprint
  }

  /** If a store keeps a key's identity and all parent links, only CheckKey can differ. */
  lemma SameKeyElsewhere(keys: seq<TrustKey>, keys': seq<TrustKey>, m: Manifest, i: nat, k': TrustKey)
    requires Sound(keys) && Sound(keys') && KeepsLinks(keys, keys')
    requires i < |keys| && Matches(keys[i], m.keyID, m.fingerprint)
    requires k' in keys' && k'.keyID == keys[i].keyID && k'.fingerprint == keys[i].fingerprint && k'.parent == keys[i].parent
    ensures Verify(keys, m).Ok? ==>
              && (Verify(keys', m).Ok? <==> CheckKey(k', m.generatedAt).Ok?)
              && (Verify(keys', m).Ok? ==>
                    AcceptedAs(keys', m, keys[i].keyID, keys[i].fingerprint, Verify(keys, m).value.path))
  {
    if Verify(keys, m).Ok? {
      var j :| 0 <= j < |keys'| && keys'[j] == k';
      VerifyAt(keys, m, i);
      VerifyAt(keys', m, j);
      WalkSurvives(keys, keys', keys[i].parent, {keys[i].keyID});
      CheckKeyKeepsIdentity(k', m.generatedAt);
    }
  }

  lemma RotationKeepsLinks(keys: seq<TrustKey>, f: nat, c: Certificate)
    requires c.Transition? && f < |keys| && Sound(keys) && Valid(Rotated(keys, f, c))
    ensures Sound(Normalize(Rotated(keys, f, c))) && KeepsLinks(keys, Normalize(Rotated(keys, f, c)))
  {
    var after := Normalize(Rotated(keys, f, c));
    RotatedMembers(keys, f, c);
    NamedIsNormal(Rotated(keys, f, c));
    NormalizedHealthy(Rotated(keys, f, c));
    forall k | k in keys ensures exists k' :: k' in after && k'.keyID == k.keyID && k'.parent == k.parent {
      var k' := if k == keys[f] then Outgoing(k, c) else k;
      assert k' in after;
    }
  }

  /** A report accepted before a transition stays accepted with the same trust path,
      unless the transition rotates its own key: then exactly the reports no later than
      the cutoff stay. */
  lemma HistorySurvivesTransition(s: Store, c: Certificate, m: Manifest, id: string, fingerprint: string, path: seq<string>)
    requires c.Transition? && Named(s.keys) && ApplyTransition(s, c).Ok?
    requires AcceptedAs(s.keys, m, id, fingerprint, path)
    ensures var s' := ApplyTransition(s, c).value;
            && Named(s'.keys)
            && (Verify(s'.keys, m).Ok? <==>
                  s' == s || !Identifies(c.from, id, fingerprint) || Within(m.generatedAt, Cutoff(c)))
            && (Verify(s'.keys, m).Ok? ==> AcceptedAs(s'.keys, m, id, fingerprint, path))
  {
    var s' := ApplyTransition(s, c).value;
    if s' != s {
      var i := AcceptedKey(s.keys, m);
      TransitionOutcome(s, c);
      var f := Find(s.keys, c.from.keyID, c.from.fingerprint).value;
      RotationKeepsLinks(s.keys, f, c);
      RotatedMembers(s.keys, f, c);
      var k' := if i == f then Outgoing(s.keys[f], c) else s.keys[i];
      assert s.keys[i] in s.keys && k' in s'.keys;
      SameKeyElsewhere(s.keys, s'.keys, m, i, k');
      IdentifiesFound(s.keys, c.from, i, f);
      if i == f {
        OutgoingKeyKeepsHistory(s.keys[f], c, m.generatedAt);
      }
    }
  }

  lemma RevocationKeepsLinks(keys: seq<TrustKey>, t: nat, c: Certificate)
    requires c.Revocation? && t < |keys|
    ensures KeepsLinks(keys, keys[t := Revoke(keys[t], c)])
  {
    var after := keys[t := Revoke(keys[t], c)];
    forall k | k in keys ensures exists k' :: k' in after && k'.keyID == k.keyID && k'.parent == k.parent {
      RevokedTo(keys, t, c, k);
      assert (if k in after then k else Revoke(keys[t], c)) in after;
    }
  }

  lemma SparedElsewhere(keys: seq<TrustKey>, t: nat, k: TrustKey, m: Manifest, i: nat)
    requires i < |keys| && t < |keys| && i != t
    ensures Sound(keys) && Sound(keys[t := k]) && KeepsLinks(keys, keys[t := k]) && Verify(keys, m).Ok?
            && Matches(keys[i], m.keyID, m.fingerprint) && CheckKey(keys[i], m.generatedAt).Ok? ==>
              AcceptedAs(keys[t := k], m, keys[i].keyID, keys[i].fingerprint, Verify(keys, m).value.path)
  {
    var keys' := keys[t := k];
    if Sound(keys) && Sound(keys') && KeepsLinks(keys, keys') && Matches(keys[i], m.keyID, m.fingerprint) {
      assert keys'[i] == keys[i];
      SameKeyElsewhere(keys, keys', m, i, keys[i]);
    }
  }

  /** Revoking another key does not touch an accepted report. */
  lemma HistorySurvivesRevocation(s: Store, c: Certificate, m: Manifest, id: string, fingerprint: string, path: seq<string>)
    requires c.Revocation? && Named(s.keys) && ApplyRevocation(s, c).Ok?
    requires AcceptedAs(s.keys, m, id, fingerprint, path) && !Identifies(c.target, id, fingerprint)
    ensures Named(ApplyRevocation(s, c).value.keys)
    ensures AcceptedAs(ApplyRevocation(s, c).value.keys, m, id, fingerprint, path)
  {
    var s' := ApplyRevocation(s, c).value;
    if s' != s {
      var i := AcceptedKey(s.keys, m);
      RevocationOutcome(s, c);
      var t := Find(s.keys, c.target.keyID, c.target.fingerprint).value;
      IdentifiesFound(s.keys, c.target, i, t);
      RevocationKeepsNames(s.keys, t, c);
      RevocationKeepsLinks(s.keys, t, c);
      SparedElsewhere(s.keys, t, Revoke(s.keys[t], c), m, i);
    }
  }

  /** A report of a revoked key is refused. */
  lemma RevokedKeyRefused(keys: seq<TrustKey>, m: Manifest, i: nat)
    requires Sound(keys) && i < |keys| && Matches(keys[i], m.keyID, m.fingerprint)
    ensures keys[i].status == Revoked ==> Verify(keys, m) == Err(KeyRevoked)
  {
    VerifyAt(keys, m, i);
  }

  /** Revoking its own key refuses it, whenever it was signed. */
  lemma RevocationEndsHistory(s: Store, c: Certificate, m: Manifest, id: string, fingerprint: string, path: seq<string>)
    requires c.Revocation? && Named(s.keys) && ApplyRevocation(s, c).Ok?
    requires AcceptedAs(s.keys, m, id, fingerprint, path) && Identifies(c.target, id, fingerprint)
    ensures Verify(ApplyRevocation(s, c).value.keys, m) == Err(KeyRevoked)
  {
    var i := AcceptedKey(s.keys, m);
    FindMeaning(s.keys, c.target.keyID, c.target.fingerprint, i);
    RevocationChanges(s, c, i);
    RevocationOutcome(s, c);
    RevocationKeepsNames(s.keys, i, c);
    RevokedKeyRefused(s.keys[i := Revoke(s.keys[i], c)], m, i);
  }

  lemma RevocationChanges(s: Store, c: Certificate, t: nat)
    requires c.Revocation? && Named(s.keys) && ApplyRevocation(s, c).Ok?
    requires Find(s.keys, c.target.keyID, c.target.fingerprint) == Ok(t) && s.keys[t].status != Revoked
    ensures ApplyRevocation(s, c).value != s
  {
    CheckedMeaning(s.keys);
    var after := s.keys[t := Revoke(s.keys[t], c)];
    CheckedMeaning(after);
    assert after[t] != s.keys[t];
  }

  /** What a certificate must respect for a report of this key and time to stay accepted. */
  predicate Spares(c: Certificate, id: string, fingerprint: string, at: Time) {
    if c.Transition? then Identifies(c.from, id, fingerprint) ==> Within(at, Cutoff(c))
    else !Identifies(c.target, id, fingerprint)
  }

  /** History survives any sequence of rotations and revocations that spares it. */
  lemma {:induction false} HistorySurvives(s: Store, cs: seq<Certificate>, m: Manifest, id: string, fingerprint: string, path: seq<string>)
    requires Named(s.keys) && AcceptedAs(s.keys, m, id, fingerprint, path)
    requires forall i | 0 <= i < |cs| :: Spares(cs[i], id, fingerprint, m.generatedAt)
    ensures AcceptedAs(ApplyAll(s, cs).keys, m, id, fingerprint, path)
    decreases |cs|
  {
    if cs != [] {
      assert forall i | 0 <= i < |cs[1..]| :: cs[1..][i] == cs[i + 1];
      var c := cs[0];
      assert Spares(c, id, fingerprint, m.generatedAt);
      if Apply(s, c).Ok? {
        if c.Transition? {
          HistorySurvivesTransition(s, c, m, id, fingerprint, path);
        } else {
          HistorySurvivesRevocation(s, c, m, id, fingerprint, path);
        }
        HistorySurvives(Apply(s, c).value, cs[1..], m, id, fingerprint, path);
      } else {
        HistorySurvives(s, cs[1..], m, id, fingerprint, path);
      }
    }
  }

  // ----- scheduled keys

  /** The key is not active and nothing descends from it. */
  ghost predicate Leaf(keys: seq<TrustKey>, id: string) {
    && HasKey(keys, id)
    && forall k | k in keys :: (k.keyID == id ==> k.status in {Pending, Revoked}) && k.parent != id
  }

  lemma RotationKeepsLeaf(s: Store, c: Certificate, id: string)
    requires c.Transition? && Named(s.keys) && Leaf(s.keys, id)
    requires ApplyTransition(s, c).Ok? && ApplyTransition(s, c).value != s
    ensures Named(ApplyTransition(s, c).value.keys) && Leaf(ApplyTransition(s, c).value.keys, id)
  {
    TransitionOutcome(s, c);
    var f := Find(s.keys, c.from.keyID, c.from.fingerprint).value;
    var after := Normalize(Rotated(s.keys, f, c));
    RotatedMembers(s.keys, f, c);
    assert s.keys[f] in s.keys;
    var l :| l in s.keys && l.keyID == id;
    assert l in after;
    IncomingIsNew(s.keys, f, c);
    forall k | k in after ensures (k.keyID == id ==> k.status in {Pending, Revoked}) && k.parent != id {
      assert k == NormalizeKey(Incoming(c)) ==> k.keyID != id;
    }
  }

  lemma RevocationKeepsLeaf(s: Store, c: Certificate, id: string)
    requires c.Revocation? && Named(s.keys) && Leaf(s.keys, id)
    requires ApplyRevocation(s, c).Ok? && ApplyRevocation(s, c).value != s
    ensures Named(ApplyRevocation(s, c).value.keys) && Leaf(ApplyRevocation(s, c).value.keys, id)
  {
    RevocationOutcome(s, c);
    var t := Find(s.keys, c.target.keyID, c.target.fingerprint).value;
    var after := s.keys[t := Revoke(s.keys[t], c)];
    assert s.keys[t] in s.keys;
    forall k | k in after ensures (k.keyID == id ==> k.status in {Pending, Revoked}) && k.parent != id {
      RevokedFrom(s.keys, t, c, k);
    }
    var l :| l in s.keys && l.keyID == id;
    RevokedTo(s.keys, t, c, l);
    assert (if l in after then l else Revoke(s.keys[t], c)) in after;
  }

  /** A key that entered the store with a scheduled activation vouches for reports once
      its time has come, but no sequence of certificates ever lets it extend trust. */
  lemma {:induction false} ScheduledKeysNeverExtendTrust(s: Store, cs: seq<Certificate>, id: string)
    requires Named(s.keys) && Leaf(s.keys, id)
    ensures Leaf(ApplyAll(s, cs).keys, id)
    decreases |cs|
  {
    if cs != [] {
      var c := cs[0];
      if Apply(s, c).Ok? {
        if Apply(s, c).value != s {
          if c.Transition? {
            RotationKeepsLeaf(s, c, id);
          } else {
            RevocationKeepsLeaf(s, c, id);
          }
        }
        ScheduledKeysNeverExtendTrust(Apply(s, c).value, cs[1..], id);
      } else {
        ScheduledKeysNeverExtendTrust(s, cs[1..], id);
      }
    }
  }

  /** ... and a scheduled key enters the store in exactly that position. */
  lemma ScheduledKeyEntersAsLeaf(s: Store, c: Certificate)
    requires c.Transition? && Sane(s) && Scheduled(c)
    requires ApplyTransition(s, c).Ok? && ApplyTransition(s, c).value != s
    ensures Leaf(ApplyTransition(s, c).value.keys, NormalizeKey(Incoming(c)).keyID)
  {
    var rank :| Grove(s.keys, rank);
    TransitionOutcome(s, c);
    var f := Find(s.keys, c.from.keyID, c.from.fingerprint).value;
    var after, incoming := Normalize(Rotated(s.keys, f, c)), NormalizeKey(Incoming(c));
    RotatedMembers(s.keys, f, c);
    IncomingIsNew(s.keys, f, c);
    assert s.keys[f] in s.keys && incoming in after;
    forall k | k in after
      ensures (k.keyID == incoming.keyID ==> k.status in {Pending, Revoked}) && k.parent != incoming.keyID
    {
      if k != incoming {
        ParentWasThere(s.keys, rank, if k == Outgoing(s.keys[f], c) then s.keys[f] else k);
      }
    }
  }

  lemma ParentWasThere(keys: seq<TrustKey>, rank: map<string, nat>, k: TrustKey)
    requires Grove(keys, rank) && k in keys
    ensures k.parent == "" || HasKey(keys, k.parent)
  {
    if k.parent != "" {
      assert HasParent(keys, k, rank);
      var p :| p in keys && ParentOf(p, k, rank);
    }
  }
}
