/** The trust store as the program keeps it: a record whose key list is rewritten in
    place by validation and replaced as a whole by an accepted certificate. */
module TrustStores {
  import opened Wrappers
  import opened Trust

  lemma CheckedAgain(keys: seq<TrustKey>)
    requires CheckedKeys(keys).Ok?
    ensures CheckedKeys(CheckedKeys(keys).value) == CheckedKeys(keys)
  {
    NamedIsNormal(keys);
    assert forall i | 0 <= i < |keys| :: Normalize(keys)[i].status == keys[i].status;
  }

  /** Validation has seen the first i keys and no id or fingerprint twice. */
  ghost predicate Scanned(keys: seq<TrustKey>, i: nat, ids: set<string>, fingerprints: set<string>) {
    && i <= |keys|
    && (forall id :: id in ids <==> SeenId(keys, i, id))
    && (forall f :: f in fingerprints <==> SeenFingerprint(keys, i, f))
    && (forall a, b | 0 <= a < b < i :: !Clash(keys[a], keys[b]))
  }

  predicate Clash(a: TrustKey, b: TrustKey) {
    a.keyID == b.keyID || a.fingerprint == b.fingerprint
  }

  ghost predicate SeenId(keys: seq<TrustKey>, i: nat, id: string)
    requires i <= |keys|
  {
    exists j :: 0 <= j < i && keys[j].keyID == id
  }

  ghost predicate SeenFingerprint(keys: seq<TrustKey>, i: nat, f: string)
    requires i <= |keys|
  {
    exists j :: 0 <= j < i && keys[j].fingerprint == f
  }

  lemma ScanClash(keys: seq<TrustKey>, i: nat, ids: set<string>, fingerprints: set<string>)
    requires Scanned(keys, i, ids, fingerprints) && i < |keys|
    requires keys[i].keyID in ids || keys[i].fingerprint in fingerprints
    ensures Duplicates(keys)
  {
    if keys[i].keyID in ids {
      assert SeenId(keys, i, keys[i].keyID);
    } else {
      assert SeenFingerprint(keys, i, keys[i].fingerprint);
    }
  }

  lemma SeenIdGrows(keys: seq<TrustKey>, i: nat, id: string)
    requires i < |keys|
    ensures SeenId(keys, i + 1, id) <==> SeenId(keys, i, id) || keys[i].keyID == id
  {
  }

  lemma SeenFingerprintGrows(keys: seq<TrustKey>, i: nat, f: string)
    requires i < |keys|
    ensures SeenFingerprint(keys, i + 1, f) <==> SeenFingerprint(keys, i, f) || keys[i].fingerprint == f
  {
  }

  lemma ScanNext(keys: seq<TrustKey>, i: nat, ids: set<string>, fingerprints: set<string>)
    requires Scanned(keys, i, ids, fingerprints) && i < |keys|
    requires keys[i].keyID !in ids && keys[i].fingerprint !in fingerprints
    ensures Scanned(keys, i + 1, ids + {keys[i].keyID}, fingerprints + {keys[i].fingerprint})
  {
    forall id ensures SeenId(keys, i + 1, id) <==> SeenId(keys, i, id) || keys[i].keyID == id {
      SeenIdGrows(keys, i, id);
    }
    forall f ensures SeenFingerprint(keys, i + 1, f) <==> SeenFingerprint(keys, i, f) || keys[i].fingerprint == f {
      SeenFingerprintGrows(keys, i, f);
    }
    forall a | 0 <= a < i ensures !Clash(keys[a], keys[i]) {
      assert SeenId(keys, i, keys[a].keyID) && SeenFingerprint(keys, i, keys[a].fingerprint);
    }
  }

  lemma ScannedAll(keys: seq<TrustKey>, ids: set<string>, fingerprints: set<string>)
    requires Scanned(keys, |keys|, ids, fingerprints)
    ensures !Duplicates(keys)
  {
    assert forall a, b | 0 <= a < b < |keys| :: !Clash(keys[a], keys[b]);
  }

  /** The first i keys are readable, and `active` says whether one of them is active. */
  ghost predicate Counted(keys: seq<TrustKey>, i: nat, active: int) {
    && i <= |keys| && active >= 0
    && (forall j | 0 <= j < i :: Readable(keys[j]))
    && (active == 0 <==> forall j | 0 <= j < i :: keys[j].status != Active)
  }

  lemma CountedNext(keys: seq<TrustKey>, i: nat, active: int)
    requires Counted(keys, i, active) && i < |keys|
    ensures !Readable(keys[i]) ==> CheckedKeys(keys) == Err(Invalid)
    ensures Readable(keys[i]) ==> Counted(keys, i + 1, if keys[i].status == Active then active + 1 else active)
  {
  }

  lemma CountedAll(keys: seq<TrustKey>, active: int)
    requires Counted(keys, |keys|, active)
    ensures !Unreadable(keys) && (NoActive(keys) <==> active == 0)
  {
  }

  /** The first i keys have their ids filled in. */
  ghost predicate PartlyNormal(was: seq<TrustKey>, keys: seq<TrustKey>, i: nat) {
    && |keys| == |was| && i <= |was|
    && forall j | 0 <= j < |was| :: keys[j] == if j < i then NormalizeKey(was[j]) else was[j]
  }

  lemma PartlyNormalNext(was: seq<TrustKey>, keys: seq<TrustKey>, i: nat)
    requires PartlyNormal(was, keys, i) && i < |was|
    ensures keys[i] == was[i] && Normalize(was)[i] == NormalizeKey(keys[i])
    ensures PartlyNormal(was, keys[i := NormalizeKey(keys[i])], i + 1)
  {
  }

  lemma PartlyNormalSame(was: seq<TrustKey>, keys: seq<TrustKey>, i: nat)
    requires PartlyNormal(was, keys, i)
    ensures Normalize(keys) == Normalize(was)
    ensures i == |was| ==> keys == Normalize(was)
  {
    assert forall j | 0 <= j < |was| :: Normalize(keys)[j] == Normalize(was)[j];
  }

  /** Validation has passed i keys. */
  ghost predicate Underway(was: seq<TrustKey>, keys: seq<TrustKey>, i: nat, ids: set<string>, fingerprints: set<string>, active: int) {
    PartlyNormal(was, keys, i) && Scanned(Normalize(was), i, ids, fingerprints) && Counted(was, i, active)
  }

  /** Validation fails with this list of keys. */
  ghost predicate Fails(was: seq<TrustKey>, keys: seq<TrustKey>) {
    CheckedKeys(was) == Err(Invalid) && Normalize(keys) == Normalize(was)
  }

  /** What the next key says: the list is invalid, or validation goes on. */
  lemma UnderwayNext(was: seq<TrustKey>, keys: seq<TrustKey>, i: nat, ids: set<string>, fingerprints: set<string>, active: int)
    requires Underway(was, keys, i, ids, fingerprints, active) && i < |keys|
    ensures var k := NormalizeKey(keys[i]);
            if !k.decodes then Fails(was, keys)
            else if k.keyID in ids || k.fingerprint in fingerprints || k.status == Unknown then Fails(was, keys[i := k])
            else Underway(was, keys[i := k], i + 1, ids + {k.keyID}, fingerprints + {k.fingerprint},
                          if k.status == Active then active + 1 else active)
  {
    var k, normal := NormalizeKey(keys[i]), Normalize(was);
    CountedNext(was, i, active);
    PartlyNormalNext(was, keys, i);
    PartlyNormalSame(was, keys, i);
    PartlyNormalSame(was, keys[i := k], i + 1);
    if k.keyID in ids || k.fingerprint in fingerprints {
      ScanClash(normal, i, ids, fingerprints);
    } else {
      ScanNext(normal, i, ids, fingerprints);
    }
  }

  lemma UnderwayAll(was: seq<TrustKey>, keys: seq<TrustKey>, ids: set<string>, fingerprints: set<string>, active: int)
    requires Underway(was, keys, |keys|, ids, fingerprints, active)
    ensures if active == 0 then Fails(was, keys) else CheckedKeys(was) == Ok(keys)
  {
    PartlyNormalSame(was, keys, |keys|);
    ScannedAll(Normalize(was), ids, fingerprints);
    CountedAll(was, active);
  }

  function Extend(prefix: seq<string>, walk: Result<seq<string>, Error>): Result<seq<string>, Error> {
    match walk
    case Ok(rest) => Ok(prefix + rest)
    case Err(e) => Err(e)
  }

  function Reversed(path: Result<seq<string>, Error>): Result<seq<string>, Error> {
    match path
    case Ok(up) => Ok(Reverse(up))
    case Err(e) => Err(e)
  }

  lemma WalkStops(keys: seq<TrustKey>, prefix: seq<string>, parent: string, seen: set<string>)
    ensures parent == "" ==> Extend(prefix, Walk(keys, parent, seen)) == Ok(prefix)
    ensures parent != "" && parent in seen ==> Extend(prefix, Walk(keys, parent, seen)) == Err(Cycle)
    ensures parent != "" && parent !in seen && Find(keys, parent, "").Err? ==>
              Extend(prefix, Walk(keys, parent, seen)) == Err(Incomplete)
  {
    assert prefix + [] == prefix;
  }

  lemma WalkStep(keys: seq<TrustKey>, prefix: seq<string>, parent: string, seen: set<string>, i: nat)
    requires parent != "" && parent !in seen && Find(keys, parent, "") == Ok(i)
    ensures Extend(prefix, Walk(keys, parent, seen)) ==
            Extend(prefix + [parent], Walk(keys, keys[i].parent, seen + {parent}))
    ensures keys[i].keyID == parent && |Ids(keys) - (seen + {parent})| < |Ids(keys) - seen|
  {
    WalkShrinks(keys, i, seen);
    var rest := Walk(keys, keys[i].parent, seen + {parent});
    if rest.Ok? {
      assert prefix + ([parent] + rest.value) == prefix + [parent] + rest.value;
    }
  }

  lemma FindSkipsFirst(keys: seq<TrustKey>, keyID: string, fingerprint: string)
    requires keys != [] && !Stops(keys[0], keyID, fingerprint)
    ensures match Find(keys[1..], keyID, fingerprint)
            case Ok(k) => Find(keys, keyID, fingerprint) == Ok(k + 1)
            case Err(e) => Find(keys, keyID, fingerprint) == Err(e)
  {
  }

  /** The scan has passed i keys without a match. */
  lemma {:induction false} FindSkips(keys: seq<TrustKey>, keyID: string, fingerprint: string, i: nat)
    requires i <= |keys|
    requires forall j | 0 <= j < i :: !Stops(keys[j], keyID, fingerprint)
    ensures match Find(keys[i..], keyID, fingerprint)
            case Ok(k) => Find(keys, keyID, fingerprint) == Ok(i + k)
            case Err(e) => Find(keys, keyID, fingerprint) == Err(e)
  {
    if i > 0 {
      assert keys[1..][i - 1..] == keys[i..];
      assert forall j | 0 <= j < i - 1 :: keys[1..][j] == keys[j + 1];
      FindSkipsFirst(keys, keyID, fingerprint);
      FindSkips(keys[1..], keyID, fingerprint, i - 1);
    } else {
      assert keys[0..] == keys;
    }
  }

  predicate Stops(k: TrustKey, keyID: string, fingerprint: string) {
    (keyID != "" && k.keyID == keyID) || (keyID == "" && fingerprint != "" && k.fingerprint == fingerprint)
  }

  lemma {:induction false} ReverseAt(s: seq<string>, k: nat)
    requires k < |s|
    ensures |Reverse(s)| == |s| && Reverse(s)[k] == s[|s| - 1 - k]
  {
    if |s| > 1 {
      ReverseAt(s[1..], if k < |s| - 1 then k else 0);
    }
  }

  lemma {:induction false} ReverseLength(s: seq<string>)
    ensures |Reverse(s)| == |s|
  {
    if s != [] {
      ReverseLength(s[1..]);
    }
  }

  /** Swapping from both ends. */
  method ReversePath(s: seq<string>) returns (path: seq<string>)
    ensures path == Reverse(s)
  {
    path := s;
    var i, j := 0, |path| - 1;
    while i < j
      invariant 0 <= i <= |s| && j == |s| - 1 - i && |path| == |s| && i <= j + 1
      invariant forall k | 0 <= k < i || j < k < |s| :: path[k] == s[|s| - 1 - k]
      invariant forall k | i <= k <= j :: path[k] == s[k]
    {
      path := path[i := path[j]][j := path[i]];
      i, j := i + 1, j - 1;
    }
    ReverseLength(s);
    forall k | 0 <= k < |s| ensures path[k] == Reverse(s)[k] {
      ReverseAt(s, k);
    }
  }

  class TrustStore {
    var updatedAt: Time
    var keys: seq<TrustKey>

    function Value(): Store
      reads this
    {
      Store(updatedAt, keys)
    }

    constructor (root: KeyDocument, trustedAt: Time)
      ensures Value() == NewStore(root, trustedAt)
    {
      var id := root.keyID;
      if id == "" {
        id := DefaultKeyID(root.fingerprint);
      }
      updatedAt := trustedAt;
      keys := [TrustKey(id, root.fingerprint, Active, trustedAt, 0, 0, 0, 0, "", "", "", "", true)];
    }

    constructor Clone(s: TrustStore)
      ensures Value() == s.Value()
    {
      updatedAt := s.updatedAt;
      keys := s.keys;
    }

    /** Fills in missing key ids while it looks for duplicates and an active key. */
    method Validate() returns (r: Result<(), Error>)
      modifies this`keys
      ensures match CheckedKeys(old(keys))
              case Ok(ks) => r.Ok? && keys == ks
              case Err(e) => r == Err(e) && Normalize(keys) == Normalize(old(keys))
    {
      ghost var was := keys;
      var ids: set<string>, fingerprints: set<string>, active := {}, {}, 0;
      for i := 0 to |keys|
        invariant Underway(was, keys, i, ids, fingerprints, active)
      {
        UnderwayNext(was, keys, i, ids, fingerprints, active);
        if !keys[i].decodes {
          return Err(Invalid);
        }
        var k := NormalizeKey(keys[i]);
        keys := keys[i := k];
        if k.keyID in ids || k.fingerprint in fingerprints {
          return Err(Invalid);
        }
        ids, fingerprints := ids + {k.keyID}, fingerprints + {k.fingerprint};
        match k.status {
          case Active => active := active + 1;
          case Unknown => return Err(Invalid);
          case _ =>
        }
      }
      UnderwayAll(was, keys, ids, fingerprints, active);
      if |keys| == 0 || active == 0 {
        return Err(Invalid);
      }
      return Ok(());
    }

    method FindKey(keyID: string, fingerprint: string) returns (r: Result<nat, Error>)
      modifies this`keys
      ensures match CheckedKeys(old(keys))
              case Ok(ks) => keys == ks && r == Find(ks, keyID, fingerprint)
              case Err(e) => r == Err(e) && Normalize(keys) == Normalize(old(keys))
    {
      var valid := Validate();
      if valid.Err? {
        return Err(valid.error);
      }
      for i := 0 to |keys|
        invariant keys == CheckedKeys(old(keys)).value
        invariant forall j | 0 <= j < i :: !Stops(keys[j], keyID, fingerprint)
      {
        FindSkips(keys, keyID, fingerprint, i);
        if keyID != "" && keys[i].keyID == keyID {
          if fingerprint != "" && keys[i].fingerprint != fingerprint {
            return Err(FingerprintDiffers);
          }
          return Ok(i);
        }
        if keyID == "" && fingerprint != "" && keys[i].fingerprint == fingerprint {
          return Ok(i);
        }
      }
      FindSkips(keys, keyID, fingerprint, |keys|);
      return Err(NotPresent);
    }

    /** Works on a clone and overwrites this store only when everything has passed. */
    method ApplyTransition(c: Certificate) returns (r: Result<(), Error>)
      requires c.Transition?
      modifies this
      ensures match Trust.ApplyTransition(old(Value()), c)
              case Ok(s) => r.Ok? && Value() == s
              case Err(e) => r == Err(e) && Value() == old(Value())
    {
      var checked := CheckTransition(c);
      if checked.Err? {
        return Err(checked.error);
      }
      var work := new TrustStore.Clone(this);
      var from := work.FindKey(c.from.keyID, c.from.fingerprint);
      if from.Err? {
        return Err(from.error);
      }
      if work.keys[from.value].status != Active {
        return Err(SourceNotActive);
      }
      CheckedAgain(keys);
      var existing := work.FindKey(c.to.keyID, c.to.fingerprint);
      if existing.Ok? {
        if work.keys[existing.value].parent == c.from.keyID || work.keys[existing.value].keyID == c.to.keyID {
          return Ok(());
        }
        return Err(DifferentPath);
      }
      work.keys := Rotated(work.keys, from.value, c);
      work.updatedAt := c.issuedAt;
      var valid := work.Validate();
      if valid.Err? {
        return Err(valid.error);
      }
      updatedAt, keys := work.updatedAt, work.keys;
      return Ok(());
    }

    method ApplyRevocation(c: Certificate) returns (r: Result<(), Error>)
      requires c.Revocation?
      modifies this
      ensures match Trust.ApplyRevocation(old(Value()), c)
              case Ok(s) => r.Ok? && Value() == s
              case Err(e) => r == Err(e) && Value() == old(Value())
    {
      if c.reason == "" {
        return Err(ReasonRequired);
      }
      if !c.signatureOk {
        return Err(BadSignature);
      }
      var work := new TrustStore.Clone(this);
      var issuer := work.FindKey(c.issuer.keyID, c.issuer.fingerprint);
      if issuer.Err? {
        return Err(issuer.error);
      }
      if work.keys[issuer.value].status != Active {
        return Err(IssuerNotActive);
      }
      CheckedAgain(keys);
      var target := work.FindKey(c.target.keyID, c.target.fingerprint);
      if target.Err? {
        return Err(target.error);
      }
      if work.keys[target.value].status == Revoked {
        if work.keys[target.value].revocation == c.digest {
          return Ok(());
        }
        return Err(RevokedDifferently);
      }
      work.keys := work.keys[target.value := Revoke(work.keys[target.value], c)];
      work.updatedAt := c.revokedAt;
      var valid := work.Validate();
      if valid.Err? {
        return Err(valid.error);
      }
      updatedAt, keys := work.updatedAt, work.keys;
      return Ok(());
    }

    /** A lookup in a store that is already in normal form. */
    method FindAgain(keyID: string, fingerprint: string) returns (r: Result<nat, Error>)
      requires CheckedKeys(keys) == Ok(keys)
      modifies this`keys
      ensures keys == old(keys) && r == Find(keys, keyID, fingerprint)
    {
      r := FindKey(keyID, fingerprint);
    }

    /** Follows parent links from a key to its root and lists them root first. */
    method PathTo(key: TrustKey) returns (r: Result<seq<string>, Error>)
      requires CheckedKeys(keys) == Ok(keys)
      modifies this`keys
      ensures keys == old(keys)
      ensures r == Reversed(Extend([key.keyID], Walk(keys, key.parent, {key.keyID})))
    {
      ghost var checked := keys;
      var path, parent, seen := [key.keyID], key.parent, {key.keyID};
      while parent != ""
        invariant keys == checked
        invariant Extend([key.keyID], Walk(checked, key.parent, {key.keyID})) == Extend(path, Walk(checked, parent, seen))
        decreases |Ids(checked) - seen|, parent != ""
      {
        WalkStops(checked, path, parent, seen);
        if parent in seen {
          return Err(Cycle);
        }
        var next := FindAgain(parent, "");
        if next.Err? {
          return Err(Incomplete);
        }
        WalkStep(checked, path, parent, seen, next.value);
        seen := seen + {parent};
        path := path + [keys[next.value].keyID];
        parent := keys[next.value].parent;
      }
      WalkStops(checked, path, parent, seen);
      path := ReversePath(path);
      return Ok(path);
    }

    /** Verification changes nothing but the normal form of the key ids. */
    method VerifyManifestTrust(m: Manifest) returns (r: Result<Verified, Error>)
      modifies this`keys
      ensures r == Verify(old(keys), m)
      ensures Normalize(keys) == Normalize(old(keys))
    {
      NamedIsNormal(keys);
      var found := FindKey(m.keyID, m.fingerprint);
      if found.Err? {
        return Err(found.error);
      }
      var key := CheckKey(keys[found.value], m.generatedAt);
      if key.Err? {
        return Err(key.error);
      }
      CheckedAgain(old(keys));
      var path := PathTo(key.value);
      if path.Err? {
        return Err(path.error);
      }
      return Ok(Verified(key.value, path.value));
    }
  }
}
