/** Every store that certificates lead to is a tree of keys, and verification returns true
    paths of it. */
module TrustForest {
  import opened Wrappers
  import opened Trust

  // ----- the shape of every reachable store

  /** Ids and fingerprints are unique, some key is active, and parents are present and
      have a smaller rank: no cycles, whatever the list order. No parent is a key still
      waiting for its activation. */
  ghost predicate Grove(keys: seq<TrustKey>, rank: map<string, nat>) {
    && Named(keys) && Distinct(keys) && Healthy(keys)
    && (forall k | k in keys :: k.keyID in rank)
    && (forall k {:trigger HasParent(keys, k, rank)} | k in keys && k.parent != "" :: HasParent(keys, k, rank))
  }

  /** Exactly the key `root` has no parent. */
  ghost predicate OnlyRoot(keys: seq<TrustKey>, root: string) {
    HasKey(keys, root) && forall k | k in keys :: k.parent == "" <==> k.keyID == root
  }

  ghost predicate HasKey(keys: seq<TrustKey>, id: string) {
    exists k :: k in keys && k.keyID == id
  }

  ghost predicate HasParent(keys: seq<TrustKey>, k: TrustKey, rank: map<string, nat>) {
    exists p :: p in keys && ParentOf(p, k, rank)
  }

  ghost predicate ParentOf(p: TrustKey, k: TrustKey, rank: map<string, nat>) {
    p.keyID == k.parent && p.keyID in rank && k.keyID in rank && rank[p.keyID] < rank[k.keyID]
    && p.status != Pending
  }

  lemma {:induction false} InsertMembers(keys: seq<TrustKey>, k: TrustKey)
    ensures multiset(InsertByTime(keys, k)) == multiset(keys) + multiset{k}
  {
    if keys != [] && keys[0].trustedAt <= k.trustedAt {
      InsertMembers(keys[1..], k);
      assert keys == [keys[0]] + keys[1..];
    }
  }

  /** Re-sorting keeps the keys. */
  lemma {:induction false} SortMembers(keys: seq<TrustKey>)
    ensures multiset(SortByTime(keys)) == multiset(keys)
  {
    if keys != [] {
      SortMembers(keys[..|keys| - 1]);
      InsertMembers(SortByTime(keys[..|keys| - 1]), keys[|keys| - 1]);
      assert keys == keys[..|keys| - 1] + [keys[|keys| - 1]];
    }
  }

  ghost predicate InTimeOrder(keys: seq<TrustKey>) {
    forall i, j | 0 <= i < j < |keys| :: keys[i].trustedAt <= keys[j].trustedAt
  }

  lemma {:induction false} InsertKeepsOrder(keys: seq<TrustKey>, k: TrustKey)
    requires InTimeOrder(keys)
    ensures InTimeOrder(InsertByTime(keys, k))
  {
    if keys != [] && keys[0].trustedAt <= k.trustedAt {
      InsertKeepsOrder(keys[1..], k);
      var rest := InsertByTime(keys[1..], k);
      InsertMembers(keys[1..], k);
      forall j | 0 <= j < |rest| ensures keys[0].trustedAt <= rest[j].trustedAt {
        assert rest[j] in multiset(rest);
        assert rest[j] == k || rest[j] in keys[1..];
      }
    }
  }

  /** The sort orders the keys by time of trust. */
  lemma {:induction false} SortOrders(keys: seq<TrustKey>)
    ensures InTimeOrder(SortByTime(keys))
  {
    if keys != [] {
      SortOrders(keys[..|keys| - 1]);
      InsertKeepsOrder(SortByTime(keys[..|keys| - 1]), keys[|keys| - 1]);
    }
  }

  lemma SameMembers(a: seq<TrustKey>, b: seq<TrustKey>)
    requires multiset(a) == multiset(b)
    ensures forall k :: k in a <==> k in b
  {
    assert forall k :: k in a <==> multiset(a)[k] > 0;
    assert forall k :: k in b <==> multiset(b)[k] > 0;
  }

  lemma CheckedMeaning(keys: seq<TrustKey>)
    ensures CheckedKeys(keys).Ok? <==> Valid(keys)
    ensures CheckedKeys(keys).Ok? ==> CheckedKeys(keys).value == Normalize(keys)
    ensures CheckedKeys(keys).Ok? && Named(keys) ==> CheckedKeys(keys).value == keys && Distinct(keys)
    ensures Named(keys) && Distinct(keys) && Healthy(keys) ==> CheckedKeys(keys) == Ok(keys)
  {
    NamedIsNormal(keys);
  }

  lemma RotatedFrom(keys: seq<TrustKey>, f: nat, c: Certificate, k: TrustKey)
    requires c.Transition? && f < |keys| && Named(keys) && k in Normalize(Rotated(keys, f, c))
    ensures k == NormalizeKey(Incoming(c)) || k in keys[f := Outgoing(keys[f], c)]
  {
    var rest := keys[f := Outgoing(keys[f], c)];
    var sorted := Rotated(keys, f, c);
    SortMembers(rest + [Incoming(c)]);
    SameMembers(sorted, rest + [Incoming(c)]);
    var i :| 0 <= i < |sorted| && Normalize(sorted)[i] == k;
    assert sorted[i] in rest + [Incoming(c)];
    if sorted[i] in rest {
      NamedRest(keys, f, c, sorted[i]);
    }
  }

  lemma NamedRest(keys: seq<TrustKey>, f: nat, c: Certificate, k: TrustKey)
    requires c.Transition? && f < |keys| && Named(keys) && k in keys[f := Outgoing(keys[f], c)]
    ensures NormalizeKey(k) == k
  {
  }

  lemma RotatedTo(keys: seq<TrustKey>, f: nat, c: Certificate, k: TrustKey)
    requires c.Transition? && f < |keys| && Named(keys)
    ensures k in keys[f := Outgoing(keys[f], c)] ==> k in Normalize(Rotated(keys, f, c))
    ensures NormalizeKey(Incoming(c)) in Normalize(Rotated(keys, f, c))
  {
    var rest := keys[f := Outgoing(keys[f], c)];
    var changed := rest + [Incoming(c)];
    SortMembers(changed);
    SameMembers(SortByTime(changed), changed);
    assert changed[|rest|] == Incoming(c);
    InNormalized(SortByTime(changed), Incoming(c));
    if k in rest {
      NamedRest(keys, f, c, k);
      InNormalized(SortByTime(changed), k);
    }
  }

  /** What a rotation leaves in the store, in whatever order. */
  lemma RotatedMembers(keys: seq<TrustKey>, f: nat, c: Certificate)
    requires c.Transition? && f < |keys| && Named(keys) && Distinct(keys)
    ensures forall k :: k in Normalize(Rotated(keys, f, c)) <==>
              k == NormalizeKey(Incoming(c)) || k == Outgoing(keys[f], c) || (k in keys && k != keys[f])
  {
    RestMembers(keys, f, Outgoing(keys[f], c));
    forall k ensures k in Normalize(Rotated(keys, f, c)) <==>
                     k == NormalizeKey(Incoming(c)) || k == Outgoing(keys[f], c) || (k in keys && k != keys[f])
    {
      RotatedTo(keys, f, c, k);
      if k in Normalize(Rotated(keys, f, c)) {
        RotatedFrom(keys, f, c, k);
      }
    }
  }

  lemma RestMembers(keys: seq<TrustKey>, f: nat, out: TrustKey)
    requires f < |keys| && Distinct(keys)
    ensures forall k :: k in keys[f := out] <==> k == out || (k in keys && k != keys[f])
  {
    forall k ensures k in keys[f := out] <==> k == out || (k in keys && k != keys[f]) {
      assert keys[f := out][f] == out;
      if k in keys && k != keys[f] {
        var i :| 0 <= i < |keys| && keys[i] == k;
        assert keys[f := out][i] == k;
      }
    }
  }

  lemma InNormalized(keys: seq<TrustKey>, k: TrustKey)
    requires k in keys
    ensures NormalizeKey(k) in Normalize(keys)
  {
    var i :| 0 <= i < |keys| && keys[i] == k;
    assert Normalize(keys)[i] == NormalizeKey(k);
  }

  /** The two outcomes of an accepted transition: nothing, or a rotation. */
  lemma TransitionOutcome(s: Store, c: Certificate)
    requires c.Transition? && Named(s.keys)
    requires ApplyTransition(s, c).Ok? && ApplyTransition(s, c).value != s
    ensures Valid(s.keys) && Distinct(s.keys)
    ensures Find(s.keys, c.from.keyID, c.from.fingerprint).Ok?
    ensures var f := Find(s.keys, c.from.keyID, c.from.fingerprint).value;
            && Matches(s.keys[f], c.from.keyID, c.from.fingerprint) && s.keys[f].status == Active
            && ApplyTransition(s, c).value.keys == Normalize(Rotated(s.keys, f, c))
            && Valid(Rotated(s.keys, f, c))
  {
    CheckedMeaning(s.keys);
    var f := Find(s.keys, c.from.keyID, c.from.fingerprint).value;
    CheckedMeaning(Rotated(s.keys, f, c));
  }

  lemma DistinctTail(head: TrustKey, rest: seq<TrustKey>)
    requires Distinct(Normalize([head] + rest))
    ensures Distinct(Normalize(rest))
  {
    assert forall i | 0 <= i < |rest| :: Normalize(rest)[i] == Normalize([head] + rest)[i + 1];
  }

  /** Neither the ids, filled in if they are missing, nor the fingerprints are the same. */
  predicate Apart(a: TrustKey, b: TrustKey) {
    NormalizeKey(a).keyID != NormalizeKey(b).keyID && a.fingerprint != b.fingerprint
  }

  lemma HeadIsApart(head: TrustKey, rest: seq<TrustKey>, k: TrustKey)
    requires Distinct(Normalize([head] + rest)) && k in rest
    ensures Apart(head, k)
  {
    var all := Normalize([head] + rest);
    var j :| 0 <= j < |rest| && rest[j] == k;
    assert all[0] == NormalizeKey(head) && all[j + 1] == NormalizeKey(k);
  }

  lemma {:induction false} InsertedIsNew(keys: seq<TrustKey>, k: TrustKey)
    requires Distinct(Normalize(InsertByTime(keys, k)))
    ensures forall o | o in keys :: Apart(o, k)
  {
    if keys == [] {
      // nothing to compare with
    } else if k.trustedAt < keys[0].trustedAt {
      forall o | o in keys ensures Apart(o, k) {
        HeadIsApart(k, keys, o);
      }
    } else {
      var rest := InsertByTime(keys[1..], k);
      DistinctTail(keys[0], rest);
      InsertedIsNew(keys[1..], k);
      InsertMembers(keys[1..], k);
      assert k in multiset(rest);
      HeadIsApart(keys[0], rest, k);
      assert keys == [keys[0]] + keys[1..];
    }
  }

  /** No key of the store had the id or the fingerprint of the incoming key. */
  lemma IncomingIsNew(keys: seq<TrustKey>, f: nat, c: Certificate)
    requires c.Transition? && f < |keys| && Named(keys) && Valid(Rotated(keys, f, c))
    ensures forall k | k in keys :: k.keyID != NormalizeKey(Incoming(c)).keyID && k.fingerprint != c.to.fingerprint
  {
    var rest := keys[f := Outgoing(keys[f], c)];
    var changed := rest + [Incoming(c)];
    assert changed[..|changed| - 1] == rest;
    InsertedIsNew(SortByTime(rest), Incoming(c));
    SortMembers(rest);
    SameMembers(SortByTime(rest), rest);
    forall k | k in keys ensures k.keyID != NormalizeKey(Incoming(c)).keyID && k.fingerprint != c.to.fingerprint {
      var i :| 0 <= i < |keys| && keys[i] == k;
      assert rest[i] in rest && rest[i].keyID == k.keyID && rest[i].fingerprint == k.fingerprint;
      assert Apart(rest[i], Incoming(c));
    }
  }

  function NewRank(rank: map<string, nat>, from: string, incoming: string): map<string, nat>
    requires from in rank
  {
    rank[incoming := rank[from] + 1]
  }

  lemma RotationKeepsParent(keys: seq<TrustKey>, rank: map<string, nat>, f: nat, c: Certificate, k: TrustKey)
    requires c.Transition? && f < |keys| && Grove(keys, rank) && Valid(Rotated(keys, f, c))
    requires Matches(keys[f], c.from.keyID, c.from.fingerprint) && keys[f].status == Active
    requires k in Normalize(Rotated(keys, f, c)) && k.parent != ""
    ensures HasParent(Normalize(Rotated(keys, f, c)), k, NewRank(rank, keys[f].keyID, NormalizeKey(Incoming(c)).keyID))
  {
    var after, out, incoming := Normalize(Rotated(keys, f, c)), Outgoing(keys[f], c), NormalizeKey(Incoming(c));
    RotatedMembers(keys, f, c);
    IncomingIsNew(keys, f, c);
    var rank' := NewRank(rank, keys[f].keyID, incoming.keyID);
    assert keys[f] in keys;
    if k == incoming {
      assert out in after && ParentOf(out, k, rank');
    } else {
      var was := if k == out then keys[f] else k;
      assert was in keys && HasParent(keys, was, rank);
      var p :| p in keys && ParentOf(p, was, rank);
      var p' := if p == keys[f] then out else p;
      assert p' in after && ParentOf(p', k, rank');
    }
  }

  lemma NormalizedHealthy(keys: seq<TrustKey>)
    requires Healthy(keys)
    ensures Healthy(Normalize(keys))
  {
    var a :| 0 <= a < |keys| && keys[a].status == Active;
    assert Normalize(keys)[a].status == Active;
  }

  lemma RotationKeepsGrove(keys: seq<TrustKey>, rank: map<string, nat>, f: nat, c: Certificate)
    requires c.Transition? && f < |keys| && Grove(keys, rank) && Valid(Rotated(keys, f, c))
    requires Matches(keys[f], c.from.keyID, c.from.fingerprint) && keys[f].status == Active
    ensures Grove(Normalize(Rotated(keys, f, c)), NewRank(rank, keys[f].keyID, NormalizeKey(Incoming(c)).keyID))
  {
    var after := Normalize(Rotated(keys, f, c));
    var rank' := NewRank(rank, keys[f].keyID, NormalizeKey(Incoming(c)).keyID);
    RotatedMembers(keys, f, c);
    NamedIsNormal(Rotated(keys, f, c));
    assert keys[f] in keys;
    forall k | k in after && k.parent != "" ensures HasParent(after, k, rank') {
      RotationKeepsParent(keys, rank, f, c, k);
    }
    NormalizedHealthy(Rotated(keys, f, c));
  }

  /** A rotation keeps the only root exactly if its issuer names its key. */
  lemma RotationKeepsOnlyRoot(keys: seq<TrustKey>, root: string, f: nat, c: Certificate)
    requires c.Transition? && f < |keys| && Named(keys) && Distinct(keys) && Valid(Rotated(keys, f, c))
    requires OnlyRoot(keys, root)
    ensures OnlyRoot(Normalize(Rotated(keys, f, c)), root) <==> c.from.keyID != ""
  {
    var after, out, incoming := Normalize(Rotated(keys, f, c)), Outgoing(keys[f], c), NormalizeKey(Incoming(c));
    RotatedMembers(keys, f, c);
    IncomingIsNew(keys, f, c);
    var r :| r in keys && r.keyID == root;
    assert (if r == keys[f] then out else r) in after;
    assert incoming in after && incoming.parent == c.from.keyID && incoming.keyID != root;
    assert keys[f] in keys;
  }

  /** A key of the store after a revocation is the revoked key or was there before. */
  lemma RevokedFrom(keys: seq<TrustKey>, t: nat, c: Certificate, k: TrustKey)
    requires c.Revocation? && t < |keys| && k in keys[t := Revoke(keys[t], c)]
    ensures k == Revoke(keys[t], c) || k in keys
  {
  }

  lemma RevokedTo(keys: seq<TrustKey>, t: nat, c: Certificate, k: TrustKey)
    requires c.Revocation? && t < |keys| && k in keys
    ensures k == keys[t] || k in keys[t := Revoke(keys[t], c)]
    ensures Revoke(keys[t], c) in keys[t := Revoke(keys[t], c)]
  {
    var i :| 0 <= i < |keys| && keys[i] == k;
    assert keys[t := Revoke(keys[t], c)][t] == Revoke(keys[t], c);
    if i != t {
      assert keys[t := Revoke(keys[t], c)][i] == k;
    }
  }

  lemma RevocationKeepsParent(keys: seq<TrustKey>, rank: map<string, nat>, t: nat, c: Certificate, k: TrustKey)
    requires c.Revocation? && t < |keys| && Grove(keys, rank)
    requires k in keys[t := Revoke(keys[t], c)]
    ensures k.keyID in rank
    ensures k.parent != "" ==> HasParent(keys[t := Revoke(keys[t], c)], k, rank)
  {
    var after, revoked := keys[t := Revoke(keys[t], c)], Revoke(keys[t], c);
    RevokedFrom(keys, t, c, k);
    var was := if k in keys then k else keys[t];
    assert was in keys && was.keyID == k.keyID && was.parent == k.parent;
    if k.parent != "" {
      assert HasParent(keys, was, rank);
      var p :| p in keys && ParentOf(p, was, rank);
      RevokedTo(keys, t, c, p);
      assert ParentOf(if p in after then p else revoked, k, rank);
    }
  }

  lemma RevocationKeepsGrove(keys: seq<TrustKey>, rank: map<string, nat>, t: nat, c: Certificate)
    requires c.Revocation? && t < |keys| && Grove(keys, rank)
    ensures Healthy(keys[t := Revoke(keys[t], c)]) ==> Grove(keys[t := Revoke(keys[t], c)], rank)
  {
    var after := keys[t := Revoke(keys[t], c)];
    forall k | k in after
      ensures k.keyID in rank && (k.parent != "" ==> HasParent(after, k, rank))
    {
      RevocationKeepsParent(keys, rank, t, c, k);
    }
    RevocationKeepsNames(keys, t, c);
  }

  lemma RevocationKeepsOnlyRoot(keys: seq<TrustKey>, root: string, t: nat, c: Certificate)
    requires c.Revocation? && t < |keys| && OnlyRoot(keys, root)
    ensures OnlyRoot(keys[t := Revoke(keys[t], c)], root)
  {
    var after := keys[t := Revoke(keys[t], c)];
    RevocationKeepsRoot(keys, root, t, c);
    assert keys[t] in keys;
    forall k | k in after ensures k.parent == "" <==> k.keyID == root {
      RevokedFrom(keys, t, c, k);
    }
  }

  lemma RevocationKeepsNames(keys: seq<TrustKey>, t: nat, c: Certificate)
    requires c.Revocation? && t < |keys| && Named(keys) && Distinct(keys)
    ensures Named(keys[t := Revoke(keys[t], c)]) && Distinct(keys[t := Revoke(keys[t], c)])
  {
  }

  lemma RevocationKeepsRoot(keys: seq<TrustKey>, root: string, t: nat, c: Certificate)
    requires c.Revocation? && t < |keys| && HasKey(keys, root)
    ensures HasKey(keys[t := Revoke(keys[t], c)], root)
  {
    var after := keys[t := Revoke(keys[t], c)];
    var r :| r in keys && r.keyID == root;
    RevokedTo(keys, t, c, r);
    assert (if r in after then r else Revoke(keys[t], c)) in after;
  }

  ghost predicate Sane(s: Store) {
    exists rank :: Grove(s.keys, rank)
  }

  ghost predicate Rooted(s: Store, root: string) {
    Sane(s) && OnlyRoot(s.keys, root)
  }

  lemma RevocationOutcome(s: Store, c: Certificate)
    requires c.Revocation? && Named(s.keys)
    requires ApplyRevocation(s, c).Ok? && ApplyRevocation(s, c).value != s
    ensures Distinct(s.keys) && Find(s.keys, c.target.keyID, c.target.fingerprint).Ok?
    ensures var t := Find(s.keys, c.target.keyID, c.target.fingerprint).value;
            && ApplyRevocation(s, c).value.keys == s.keys[t := Revoke(s.keys[t], c)]
            && Healthy(s.keys[t := Revoke(s.keys[t], c)])
  {
    CheckedMeaning(s.keys);
    var t := Find(s.keys, c.target.keyID, c.target.fingerprint).value;
    CheckedMeaning(s.keys[t := Revoke(s.keys[t], c)]);
  }

  /** An accepted certificate keeps parents present and links without cycles. */
  lemma ApplyKeepsGrove(s: Store, c: Certificate)
    requires Sane(s) && Apply(s, c).Ok?
    ensures Sane(Apply(s, c).value)
  {
    var rank :| Grove(s.keys, rank);
    var s' := Apply(s, c).value;
    if s' == s {
      assert Grove(s'.keys, rank);
    } else if c.Transition? {
      TransitionOutcome(s, c);
      var f := Find(s.keys, c.from.keyID, c.from.fingerprint).value;
      assert s.keys[f] in s.keys;
      RotationKeepsGrove(s.keys, rank, f, c);
      assert Grove(s'.keys, NewRank(rank, s.keys[f].keyID, NormalizeKey(Incoming(c)).keyID));
    } else {
      RevocationOutcome(s, c);
      RevocationKeepsGrove(s.keys, rank, Find(s.keys, c.target.keyID, c.target.fingerprint).value, c);
      assert Grove(s'.keys, rank);
    }
  }

  /** In every store reachable by any certificates ids are unique, some key is active,
      and parent links lead to present keys without cycles. */
  lemma {:induction false} ReachableStoresAreSane(s: Store, cs: seq<Certificate>)
    requires Sane(s)
    ensures Sane(ApplyAll(s, cs))
    decreases |cs|
  {
    if cs != [] {
      if Apply(s, cs[0]).Ok? {
        ApplyKeepsGrove(s, cs[0]);
        ReachableStoresAreSane(Apply(s, cs[0]).value, cs[1..]);
      } else {
        ReachableStoresAreSane(s, cs[1..]);
      }
    }
  }

  /** A certificate that changes the store names its issuer's key if it is a transition. */
  predicate KeepsOneRoot(s: Store, c: Certificate) {
    Apply(s, c).Ok? && Apply(s, c).value != s && c.Transition? ==> c.from.keyID != ""
  }

  predicate AllKeepOneRoot(s: Store, cs: seq<Certificate>)
    decreases |cs|
  {
    cs == [] || (KeepsOneRoot(s, cs[0]) && AllKeepOneRoot(ApplyAll(s, cs[..1]), cs[1..]))
  }

  /** A transition without the issuer's key id makes a second root: an accepted certificate
      keeps the tree exactly if it changes nothing or names its issuer. */
  lemma TreeIffIssuerNamed(s: Store, c: Certificate, root: string)
    requires Rooted(s, root) && Apply(s, c).Ok?
    ensures Rooted(Apply(s, c).value, root) <==> KeepsOneRoot(s, c)
  {
    ApplyKeepsGrove(s, c);
    var rank :| Grove(s.keys, rank);
    if Apply(s, c).value != s {
      if c.Transition? {
        TransitionOutcome(s, c);
        RotationKeepsOnlyRoot(s.keys, root, Find(s.keys, c.from.keyID, c.from.fingerprint).value, c);
      } else {
        RevocationOutcome(s, c);
        RevocationKeepsOnlyRoot(s.keys, root, Find(s.keys, c.target.keyID, c.target.fingerprint).value, c);
      }
    }
  }

  ghost predicate SecondRoot(keys: seq<TrustKey>, root: string) {
    exists k :: k in keys && k.parent == "" && k.keyID != root
  }

  /** A second root never goes away. */
  lemma ApplyKeepsSecondRoot(s: Store, c: Certificate, root: string)
    requires Sane(s) && SecondRoot(s.keys, root) && Apply(s, c).Ok?
    ensures SecondRoot(Apply(s, c).value.keys, root)
  {
    var rank :| Grove(s.keys, rank);
    var k :| k in s.keys && k.parent == "" && k.keyID != root;
    if Apply(s, c).value != s {
      if c.Transition? {
        TransitionOutcome(s, c);
        var f := Find(s.keys, c.from.keyID, c.from.fingerprint).value;
        RotatedMembers(s.keys, f, c);
        assert (if k == s.keys[f] then Outgoing(k, c) else k) in Apply(s, c).value.keys;
      } else {
        RevocationOutcome(s, c);
        var t := Find(s.keys, c.target.keyID, c.target.fingerprint).value;
        RevokedTo(s.keys, t, c, k);
        assert (if k == s.keys[t] then Revoke(k, c) else k) in Apply(s, c).value.keys;
      }
    }
  }

  lemma {:induction false} SecondRootStays(s: Store, cs: seq<Certificate>, root: string)
    requires Sane(s) && SecondRoot(s.keys, root)
    ensures SecondRoot(ApplyAll(s, cs).keys, root)
    decreases |cs|
  {
    if cs != [] {
      if Apply(s, cs[0]).Ok? {
        ApplyKeepsGrove(s, cs[0]);
        ApplyKeepsSecondRoot(s, cs[0], root);
        SecondRootStays(Apply(s, cs[0]).value, cs[1..], root);
      } else {
        SecondRootStays(s, cs[1..], root);
      }
    }
  }

  lemma ApplyAllOne(s: Store, cs: seq<Certificate>)
    requires cs != []
    ensures ApplyAll(s, cs[..1]) == match Apply(s, cs[0]) case Ok(s') => s' case Err(_) => s
  {
    assert cs[..1][1..] == [] && cs[..1][0] == cs[0];
  }

  lemma NoTreeWithSecondRoot(s: Store, c: Certificate, root: string)
    requires Rooted(s, root) && Apply(s, c).Ok? && !KeepsOneRoot(s, c)
    ensures SecondRoot(Apply(s, c).value.keys, root)
  {
    var rank :| Grove(s.keys, rank);
    TransitionOutcome(s, c);
    var f := Find(s.keys, c.from.keyID, c.from.fingerprint).value;
    RotatedMembers(s.keys, f, c);
    IncomingIsNew(s.keys, f, c);
    assert NormalizeKey(Incoming(c)) in Apply(s, c).value.keys;
  }

  /** A store that was a tree is one after any certificates if and only if every
      transition that changed it named its issuer's key. */
  lemma {:induction false} TreeIffIssuersNamed(s: Store, cs: seq<Certificate>, root: string)
    requires Rooted(s, root)
    ensures Rooted(ApplyAll(s, cs), root) <==> AllKeepOneRoot(s, cs)
    decreases |cs|
  {
    if cs != [] {
      ApplyAllOne(s, cs);
      if Apply(s, cs[0]).Ok? {
        TreeIffIssuerNamed(s, cs[0], root);
        ApplyKeepsGrove(s, cs[0]);
        if KeepsOneRoot(s, cs[0]) {
          TreeIffIssuersNamed(Apply(s, cs[0]).value, cs[1..], root);
        } else {
          NoTreeWithSecondRoot(s, cs[0], root);
          SecondRootStays(Apply(s, cs[0]).value, cs[1..], root);
        }
      } else {
        TreeIffIssuersNamed(s, cs[1..], root);
      }
    }
  }

  lemma NewStoreIsForest(root: KeyDocument, at: Time)
    ensures Rooted(NewStore(root, at), NewStore(root, at).keys[0].keyID)
  {
    var keys := NewStore(root, at).keys;
    assert keys[0] in keys;
    assert Grove(keys, map[keys[0].keyID := 0]);
  }

  predicate Changes(s: Store, c: Certificate) {
    Apply(s, c).Ok? && Apply(s, c).value != s
  }

  function After(s: Store, c: Certificate): Store {
    if Apply(s, c).Ok? then Apply(s, c).value else s
  }

  ghost predicate Sound(keys: seq<TrustKey>) {
    Named(keys) && Distinct(keys) && Healthy(keys)
  }

  /** The document names the key with this id and fingerprint. */
  predicate Identifies(doc: KeyDocument, id: string, fingerprint: string) {
    if doc.keyID != "" then doc.keyID == id && (doc.fingerprint == "" || doc.fingerprint == fingerprint)
    else doc.fingerprint != "" && doc.fingerprint == fingerprint
  }

  /** A document identifies exactly the key that is found by it. */
  lemma IdentifiesFound(keys: seq<TrustKey>, doc: KeyDocument, i: nat, f: nat)
    requires Distinct(keys) && i < |keys| && Find(keys, doc.keyID, doc.fingerprint) == Ok(f)
    ensures Identifies(doc, keys[i].keyID, keys[i].fingerprint) <==> i == f
  {
    if Identifies(doc, keys[i].keyID, keys[i].fingerprint) {
      FindMeaning(keys, doc.keyID, doc.fingerprint, i);
    }
  }

  // ----- a rotation to a fresh key is accepted

  /** The certificate is well formed, comes from this key, and brings in a key with an id
      and a fingerprint that are not in use. */
  ghost predicate FreshRotation(keys: seq<TrustKey>, c: Certificate, k: TrustKey) {
    && c.Transition? && CheckTransition(c).Ok? && Identifies(c.from, k.keyID, k.fingerprint)
    && c.to.keyID != "" && forall o | o in keys :: o.keyID != c.to.keyID && o.fingerprint != c.to.fingerprint
  }

  lemma {:induction false} FindMisses(keys: seq<TrustKey>, id: string, fingerprint: string)
    requires id != "" && forall o | o in keys :: o.keyID != id
    ensures Find(keys, id, fingerprint).Err?
  {
    if keys != [] {
      assert keys[0] in keys;
      FindMisses(keys[1..], id, fingerprint);
    }
  }

  lemma {:induction false} InsertKeepsDistinct(keys: seq<TrustKey>, k: TrustKey)
    requires Distinct(keys) && forall o | o in keys :: o.keyID != k.keyID && o.fingerprint != k.fingerprint
    ensures Distinct(InsertByTime(keys, k))
  {
    if keys != [] && keys[0].trustedAt <= k.trustedAt {
      var rest := InsertByTime(keys[1..], k);
      InsertKeepsDistinct(keys[1..], k);
      InsertMembers(keys[1..], k);
      forall o | o in rest ensures o.keyID != keys[0].keyID && o.fingerprint != keys[0].fingerprint {
        assert o in multiset(rest);
        assert o == k || o in keys[1..];
      }
      DistinctCons(keys[0], rest);
    } else {
      DistinctCons(k, keys);
    }
  }

  lemma DistinctCons(k: TrustKey, keys: seq<TrustKey>)
    requires Distinct(keys) && forall o | o in keys :: o.keyID != k.keyID && o.fingerprint != k.fingerprint
    ensures Distinct([k] + keys)
  {
    var all := [k] + keys;
    forall i, j | 0 <= i < j < |all| ensures all[i].keyID != all[j].keyID && all[i].fingerprint != all[j].fingerprint {
      assert all[j] == keys[j - 1] && keys[j - 1] in keys;
    }
  }

  lemma {:induction false} SortKeepsDistinct(keys: seq<TrustKey>)
    requires Distinct(keys)
    ensures Distinct(SortByTime(keys))
  {
    if keys != [] {
      var front, last := keys[..|keys| - 1], keys[|keys| - 1];
      SortKeepsDistinct(front);
      SortMembers(front);
      SameMembers(SortByTime(front), front);
      InsertKeepsDistinct(SortByTime(front), last);
    }
  }

  /** Sorting makes no difference to what a list of named keys must satisfy. */
  lemma SortKeepsSound(keys: seq<TrustKey>)
    requires Named(keys) && Distinct(keys) && Healthy(keys)
    ensures Named(SortByTime(keys)) && Distinct(SortByTime(keys)) && Healthy(SortByTime(keys))
  {
    var sorted := SortByTime(keys);
    SortKeepsDistinct(keys);
    SortMembers(keys);
    SameMembers(sorted, keys);
    forall j | 0 <= j < |sorted| ensures sorted[j].keyID != "" && Readable(sorted[j]) {
      assert sorted[j] in keys;
    }
    var i :| 0 <= i < |keys| && keys[i].status == Active;
    assert keys[i] in sorted;
    var j :| 0 <= j < |sorted| && sorted[j] == keys[i];
  }

  lemma RotatedIsSound(keys: seq<TrustKey>, f: nat, c: Certificate)
    requires f < |keys| && Sound(keys) && FreshRotation(keys, c, keys[f]) && keys[f].status == Active
    ensures CheckedKeys(Rotated(keys, f, c)).Ok?
  {
    var out, rest := Outgoing(keys[f], c), keys[f := Outgoing(keys[f], c)];
    var all := rest + [Incoming(c)];
    assert all[f] == out && all[|keys|] == Incoming(c);
    assert out.status == Active || Incoming(c).status == Active;
    SortKeepsSound(all);
    CheckedMeaning(SortByTime(all));
  }

  /** Every well-formed rotation by an active key to a fresh one is accepted. */
  lemma FreshRotationAccepted(s: Store, c: Certificate, k: TrustKey)
    requires Sane(s) && k in s.keys && k.status == Active && FreshRotation(s.keys, c, k)
    ensures Changes(s, c)
  {
    var rank :| Grove(s.keys, rank);
    var f :| 0 <= f < |s.keys| && s.keys[f] == k;
    CheckedMeaning(s.keys);
    FindMeaning(s.keys, c.from.keyID, c.from.fingerprint, f);
    FindMisses(s.keys, c.to.keyID, c.to.fingerprint);
    RotatedIsSound(s.keys, f, c);
    RotatedIsLonger(s.keys, f, c);
    RotationOutcome(s, c, f);
  }

  lemma RotatedIsLonger(keys: seq<TrustKey>, f: nat, c: Certificate)
    requires c.Transition? && f < |keys|
    ensures |Rotated(keys, f, c)| == |keys| + 1
  {
    var all := keys[f := Outgoing(keys[f], c)] + [Incoming(c)];
    SortMembers(all);
    assert |multiset(Rotated(keys, f, c))| == |multiset(all)|;
  }

  lemma RotationOutcome(s: Store, c: Certificate, f: nat)
    requires c.Transition? && CheckTransition(c).Ok? && CheckedKeys(s.keys) == Ok(s.keys)
    requires Find(s.keys, c.from.keyID, c.from.fingerprint) == Ok(f) && s.keys[f].status == Active
    requires Find(s.keys, c.to.keyID, c.to.fingerprint).Err?
    requires CheckedKeys(Rotated(s.keys, f, c)).Ok? && |Rotated(s.keys, f, c)| == |s.keys| + 1
    ensures Changes(s, c)
  {
  }

  // ----- a certificate without the issuer's id

  const FIRST_KEY := KeyDocument("first", "f1")
  const UNNAMED := Transition(KeyDocument("", "f1"), KeyDocument("second", "f2"), 2, 0, 0, "rotation", true, "d")

  /** A new store and an accepted certificate, known to its issuer by fingerprint only,
      that leaves two roots. */
  lemma UnnamedIssuerWitness()
    ensures var s := NewStore(FIRST_KEY, 1);
            && Rooted(s, "first") && ApplyTransition(s, UNNAMED).Ok?
            && !Rooted(ApplyTransition(s, UNNAMED).value, "first")
  {
    var s := NewStore(FIRST_KEY, 1);
    NewStoreIsForest(FIRST_KEY, 1);
    assert "first"[0] != "second"[0] && "f1"[1] != "f2"[1];
    FreshRotationAccepted(s, UNNAMED, s.keys[0]);
    TreeIffIssuerNamed(s, UNNAMED, "first");
  }

  // ----- trust paths

  ghost predicate IsRoot(keys: seq<TrustKey>, id: string) {
    exists k :: k in keys && k.keyID == id && k.parent == ""
  }

  /** A list of true parent links inside the store from a root to a key. */
  ghost predicate TrustPath(keys: seq<TrustKey>, id: string, path: seq<string>) {
    && path != [] && IsRoot(keys, path[0]) && path[|path| - 1] == id
    && (forall i | 0 <= i < |path| :: HasKey(keys, path[i]))
    && forall i | 0 <= i < |path| - 1 :: Links(keys, path[i], path[i + 1])
  }

  ghost predicate Links(keys: seq<TrustKey>, parent: string, child: string) {
    exists k :: k in keys && k.keyID == child && k.parent == parent
  }

  /** The walk upward, before it is reversed. */
  ghost predicate Upward(keys: seq<TrustKey>, id: string, up: seq<string>)
    decreases |up|
  {
    if up == [] then IsRoot(keys, id)
    else HasKey(keys, id) && Links(keys, up[0], id) && Upward(keys, up[0], up[1..])
  }

  /** The walk never meets a key twice and never misses a parent. */
  lemma {:induction false} WalkReachesRoot(keys: seq<TrustKey>, rank: map<string, nat>, k: TrustKey, seen: set<string>)
    requires Grove(keys, rank) && k in keys
    requires forall id | id in seen :: id in rank && rank[k.keyID] <= rank[id]
    ensures Walk(keys, k.parent, seen).Ok? && Upward(keys, k.keyID, Walk(keys, k.parent, seen).value)
    decreases rank[k.keyID]
  {
    if k.parent != "" {
      assert HasParent(keys, k, rank);
      var p :| p in keys && ParentOf(p, k, rank);
      var i :| 0 <= i < |keys| && keys[i] == p;
      FindMeaning(keys, k.parent, "", i);
      WalkReachesRoot(keys, rank, p, seen + {p.keyID});
      assert Links(keys, p.keyID, k.keyID);
    }
  }

  lemma {:induction false} ReverseUpward(keys: seq<TrustKey>, id: string, up: seq<string>)
    requires Upward(keys, id, up)
    ensures TrustPath(keys, id, Reverse([id] + up))
    decreases |up|
  {
    assert ([id] + up)[1..] == up;
    if up != [] {
      ReverseUpward(keys, up[0], up[1..]);
      assert [up[0]] + up[1..] == up;
      var path := Reverse(up);
      forall i | 0 <= i < |path + [id]| - 1 ensures Links(keys, (path + [id])[i], (path + [id])[i + 1]) {
        if i == |path| - 1 {
          assert path[i] == up[0];
        }
      }
    } else {
      assert Reverse([id] + up) == [id];
    }
  }

  lemma CheckKeyKeepsIdentity(k: TrustKey, at: Time)
    ensures match CheckKey(k, at)
            case Ok(e) => e.keyID == k.keyID && e.fingerprint == k.fingerprint && e.parent == k.parent
            case Err(e) => e in {KeyRevoked, BeforeActivation, BeforeTransition, AfterRetirement}
  {
  }

  lemma VerifyFound(keys: seq<TrustKey>, rank: map<string, nat>, m: Manifest, i: nat)
    requires Grove(keys, rank) && Find(keys, m.keyID, m.fingerprint) == Ok(i)
    ensures Walk(keys, keys[i].parent, {keys[i].keyID}).Ok?
    ensures Verify(keys, m) ==
            match CheckKey(keys[i], m.generatedAt)
            case Err(e) => Err(e)
            case Ok(k) => Ok(Verified(k, Reverse([keys[i].keyID] + Walk(keys, keys[i].parent, {keys[i].keyID}).value)))
    ensures TrustPath(keys, keys[i].keyID,
                      Reverse([keys[i].keyID] + Walk(keys, keys[i].parent, {keys[i].keyID}).value))
  {
    CheckedMeaning(keys);
    CheckKeyKeepsIdentity(keys[i], m.generatedAt);
    assert keys[i] in keys;
    WalkReachesRoot(keys, rank, keys[i], {keys[i].keyID});
    ReverseUpward(keys, keys[i].keyID, Walk(keys, keys[i].parent, {keys[i].keyID}).value);
  }

  /** Verification against any reachable store terminates without reporting a cycle or a
      gap, and an accepted report comes with a true path from a root to its key: in a
      tree, from the first key. */
  lemma VerifiedPathIsTrue(keys: seq<TrustKey>, rank: map<string, nat>, m: Manifest)
    requires Grove(keys, rank)
    ensures match Verify(keys, m)
            case Ok(v) => && TrustPath(keys, v.key.keyID, v.path)
                          && forall root :: OnlyRoot(keys, root) ==> v.path[0] == root
            case Err(e) => e !in {Cycle, Incomplete, Invalid}
  {
    CheckedMeaning(keys);
    var i := Find(keys, m.keyID, m.fingerprint);
    if i.Ok? {
      VerifyFound(keys, rank, m, i.value);
      CheckKeyKeepsIdentity(keys[i.value], m.generatedAt);
    } else {
      FindErrors(keys, m.keyID, m.fingerprint);
    }
  }

  lemma {:induction false} FindErrors(keys: seq<TrustKey>, keyID: string, fingerprint: string)
    ensures Find(keys, keyID, fingerprint).Err? ==> Find(keys, keyID, fingerprint).error in {NotPresent, FingerprintDiffers}
  {
    if keys != [] {
      FindErrors(keys[1..], keyID, fingerprint);
    }
  }
}
