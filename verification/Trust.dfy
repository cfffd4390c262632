/** Signing-key trust: what a store of keys means, how certificates change it, and
    what a verified report can rely on. Key bytes are represented by their
    fingerprint, times by integers with 0 for the unset time, and signature checks
    and certificate digests are fields of the certificate. */
module Trust {
  import opened Wrappers

  type Time = int

  /** Any other status text is Unknown. */
  datatype Status = Pending | Active | Retired | Revoked | Unknown

  datatype KeyDocument = KeyDocument(keyID: string, fingerprint: string)

  /** `decodes` says that the stored key document is well formed and agrees with itself. */
  datatype TrustKey = TrustKey(
    keyID: string, fingerprint: string, status: Status,
    trustedAt: Time, notBefore: Time, retireAfter: Time, retiredAt: Time, revokedAt: Time,
    reason: string, parent: string, transition: string, revocation: string,
    decodes: bool)

  datatype Store = Store(updatedAt: Time, keys: seq<TrustKey>)

  datatype Certificate =
    | Transition(from: KeyDocument, to: KeyDocument, issuedAt: Time, notBefore: Time, overlapUntil: Time,
                 reason: string, signatureOk: bool, digest: string)
    | Revocation(issuer: KeyDocument, target: KeyDocument, revokedAt: Time,
                 reason: string, signatureOk: bool, digest: string)

  datatype Error =
    | Invalid | NotPresent | FingerprintDiffers
    | SameKey | NotBeforePredates | OverlapPredates | BadSignature | ReasonRequired
    | SourceNotActive | DifferentPath | IssuerNotActive | RevokedDifferently
    | KeyRevoked | BeforeActivation | BeforeTransition | AfterRetirement | Cycle | Incomplete

  // ----- well-formed key lists

  function DefaultKeyID(fingerprint: string): string {
    "ed25519-" + (if |fingerprint| > 16 then fingerprint[..16] else fingerprint)
  }

  function NormalizeKey(k: TrustKey): TrustKey {
    if k.keyID == "" then k.(keyID := DefaultKeyID(k.fingerprint)) else k
  }

  function Normalize(keys: seq<TrustKey>): seq<TrustKey> {
    seq(|keys|, i requires 0 <= i < |keys| => NormalizeKey(keys[i]))
  }

  ghost predicate Distinct(keys: seq<TrustKey>) {
    forall i, j | 0 <= i < j < |keys| ::
      keys[i].keyID != keys[j].keyID && keys[i].fingerprint != keys[j].fingerprint
  }

  ghost predicate Named(keys: seq<TrustKey>) {
    forall i | 0 <= i < |keys| :: keys[i].keyID != ""
  }

  /** Every key can be read and some key is active. */
  ghost predicate Healthy(keys: seq<TrustKey>) {
    && (exists i :: 0 <= i < |keys| && keys[i].status == Active)
    && forall i | 0 <= i < |keys| :: Readable(keys[i])
  }

  predicate Readable(k: TrustKey) {
    k.decodes && k.status != Unknown
  }

  ghost predicate Valid(keys: seq<TrustKey>) {
    Distinct(Normalize(keys)) && Healthy(keys)
  }

  lemma NamedIsNormal(keys: seq<TrustKey>)
    ensures Named(Normalize(keys)) && Normalize(Normalize(keys)) == Normalize(keys)
    ensures Named(keys) ==> Normalize(keys) == keys
  {
  }

  // ----- looking a key up

  /** The scan: by id if one is given (and then the fingerprint, if given, must agree),
      otherwise by fingerprint. */
  function Find(keys: seq<TrustKey>, keyID: string, fingerprint: string): (r: Result<nat, Error>)
    ensures r.Ok? ==> r.value < |keys| && Matches(keys[r.value], keyID, fingerprint)
  {
    if keys == [] then Err(NotPresent)
    else if keyID != "" && keys[0].keyID == keyID then
      if fingerprint != "" && keys[0].fingerprint != fingerprint then Err(FingerprintDiffers) else Ok(0)
    else if keyID == "" && fingerprint != "" && keys[0].fingerprint == fingerprint then Ok(0)
    else
      var i :- Find(keys[1..], keyID, fingerprint);
      Ok(i + 1)
  }

  predicate Matches(k: TrustKey, keyID: string, fingerprint: string) {
    if keyID != "" then k.keyID == keyID && (fingerprint == "" || k.fingerprint == fingerprint)
    else fingerprint != "" && k.fingerprint == fingerprint
  }

  /** Among distinct keys the scan finds exactly the key that matches. */
  lemma {:induction false} FindMeaning(keys: seq<TrustKey>, keyID: string, fingerprint: string, i: nat)
    requires Distinct(keys) && i < |keys| && Matches(keys[i], keyID, fingerprint)
    ensures Find(keys, keyID, fingerprint) == Ok(i)
  {
    if i > 0 {
      assert keys[1..][i - 1] == keys[i];
      FindMeaning(keys[1..], keyID, fingerprint, i - 1);
    }
  }

  // ----- rotation

  /** Stable sort by time of trust: each key goes behind those trusted no later. */
  function InsertByTime(keys: seq<TrustKey>, k: TrustKey): seq<TrustKey> {
    if keys == [] then [k]
    else if k.trustedAt < keys[0].trustedAt then [k] + keys
    else [keys[0]] + InsertByTime(keys[1..], k)
  }

  function SortByTime(keys: seq<TrustKey>): seq<TrustKey> {
    if keys == [] then [] else InsertByTime(SortByTime(keys[..|keys| - 1]), keys[|keys| - 1])
  }

  function CheckTransition(c: Certificate): Result<(), Error>
    requires c.Transition?
  {
    var nb := if c.notBefore == 0 then c.issuedAt else c.notBefore;
    if c.from.fingerprint == c.to.fingerprint then Err(SameKey)
    else if c.notBefore != 0 && c.notBefore < c.issuedAt then Err(NotBeforePredates)
    else if c.overlapUntil != 0 && c.overlapUntil < nb then Err(OverlapPredates)
    else if !c.signatureOk then Err(BadSignature)
    else Ok(())
  }

  function Start(c: Certificate): Time
    requires c.Transition?
  {
    if c.notBefore == 0 then c.issuedAt else c.notBefore
  }

  predicate Scheduled(c: Certificate)
    requires c.Transition?
  {
    Start(c) > c.issuedAt
  }

  /** The predecessor after the rotation. */
  function Outgoing(k: TrustKey, c: Certificate): TrustKey
    requires c.Transition?
  {
    var retired :=
      if !Scheduled(c) && c.overlapUntil == 0 then
        k.(status := Retired, retiredAt := Start(c), reason := c.reason)
      else k;
    if c.overlapUntil != 0 then retired.(retireAfter := c.overlapUntil) else retired
  }

  function Incoming(c: Certificate): TrustKey
    requires c.Transition?
  {
    TrustKey(c.to.keyID, c.to.fingerprint, if Scheduled(c) then Pending else Active,
             c.issuedAt, Start(c), 0, 0, 0, "", c.from.keyID, c.digest, "", true)
  }

  function CheckedKeys(keys: seq<TrustKey>): Result<seq<TrustKey>, Error> {
    if Unreadable(keys) || Duplicates(Normalize(keys)) || NoActive(keys) then Err(Invalid) else Ok(Normalize(keys))
  }

  predicate Duplicates(keys: seq<TrustKey>) {
    exists i, j | 0 <= i < j < |keys| :: keys[i].keyID == keys[j].keyID || keys[i].fingerprint == keys[j].fingerprint
  }

  predicate Unreadable(keys: seq<TrustKey>) {
    exists i | 0 <= i < |keys| :: !Readable(keys[i])
  }

  predicate NoActive(keys: seq<TrustKey>) {
    forall i | 0 <= i < |keys| :: keys[i].status != Active
  }

  function Rotated(keys: seq<TrustKey>, from: nat, c: Certificate): seq<TrustKey>
    requires c.Transition? && from < |keys|
  {
    SortByTime(keys[from := Outgoing(keys[from], c)] + [Incoming(c)])
  }

  /** The store after a transition certificate, or why it is refused. */
  function ApplyTransition(s: Store, c: Certificate): Result<Store, Error>
    requires c.Transition?
  {
    var _ :- CheckTransition(c);
    var keys :- CheckedKeys(s.keys);
    var from :- Find(keys, c.from.keyID, c.from.fingerprint);
    if keys[from].status != Active then Err(SourceNotActive)
    else
      match Find(keys, c.to.keyID, c.to.fingerprint)
      case Ok(i) =>
        if keys[i].parent == c.from.keyID || keys[i].keyID == c.to.keyID then Ok(s)
        else Err(DifferentPath)
      case Err(_) =>
        var rotated :- CheckedKeys(Rotated(keys, from, c));
        Ok(Store(c.issuedAt, rotated))
  }

  function Revoke(k: TrustKey, c: Certificate): TrustKey
    requires c.Revocation?
  {
    k.(status := Revoked, revokedAt := c.revokedAt, reason := c.reason, revocation := c.digest)
  }

  function ApplyRevocation(s: Store, c: Certificate): Result<Store, Error>
    requires c.Revocation?
  {
    if c.reason == "" then Err(ReasonRequired)
    else if !c.signatureOk then Err(BadSignature)
    else
      var keys :- CheckedKeys(s.keys);
      var issuer :- Find(keys, c.issuer.keyID, c.issuer.fingerprint);
      if keys[issuer].status != Active then Err(IssuerNotActive)
      else
        var target :- Find(keys, c.target.keyID, c.target.fingerprint);
        if keys[target].status == Revoked then
          if keys[target].revocation == c.digest then Ok(s) else Err(RevokedDifferently)
        else
          var revoked :- CheckedKeys(keys[target := Revoke(keys[target], c)]);
          Ok(Store(c.revokedAt, revoked))
  }

  function Apply(s: Store, c: Certificate): Result<Store, Error> {
    if c.Transition? then ApplyTransition(s, c) else ApplyRevocation(s, c)
  }

  /** A refused certificate leaves the store as it was. */
  function ApplyAll(s: Store, cs: seq<Certificate>): Store
    decreases |cs|
  {
    if cs == [] then s
    else
      match Apply(s, cs[0])
      case Ok(s') => ApplyAll(s', cs[1..])
      case Err(_) => ApplyAll(s, cs[1..])
  }

  function NewStore(root: KeyDocument, at: Time): Store {
    var id := if root.keyID == "" then DefaultKeyID(root.fingerprint) else root.keyID;
    Store(at, [TrustKey(id, root.fingerprint, Active, at, 0, 0, 0, 0, "", "", "", "", true)])
  }

  // ----- verifying a report

  datatype Manifest = Manifest(keyID: string, fingerprint: string, generatedAt: Time)

  datatype Verified = Verified(key: TrustKey, path: seq<string>)

  function Ids(keys: seq<TrustKey>): set<string> {
    set i | 0 <= i < |keys| :: keys[i].keyID
  }

  /** The key as it counts for a report of the given time. */
  function Effective(k: TrustKey, at: Time): TrustKey {
    if k.status == Pending then k.(status := Active)
    else if k.status == Active && k.retireAfter != 0 && at > k.retireAfter then
      k.(status := Retired, retiredAt := k.retireAfter)
    else k
  }

  /** The key as it vouches for a report of the given time, or why it does not. */
  function CheckKey(k: TrustKey, at: Time): Result<TrustKey, Error> {
    if k.status == Revoked then Err(KeyRevoked)
    else if k.status == Pending && (k.notBefore == 0 || at < k.notBefore) then Err(BeforeActivation)
    else
      var e := Effective(k, at);
      if e.parent != "" && e.notBefore != 0 && at < e.notBefore then Err(BeforeTransition)
      else if e.parent != "" && e.trustedAt != 0 && at < e.trustedAt then Err(BeforeTransition)
      else if e.status == Retired && e.retiredAt != 0 && at > e.retiredAt then Err(AfterRetirement)
      else Ok(e)
  }

  /** Parents from the given one up to a root. */
  function Walk(keys: seq<TrustKey>, parent: string, seen: set<string>): Result<seq<string>, Error>
    decreases |Ids(keys) - seen|
  {
    if parent == "" then Ok([])
    else if parent in seen then Err(Cycle)
    else
      match Find(keys, parent, "")
      case Err(_) => Err(Incomplete)
      case Ok(i) =>
        WalkShrinks(keys, i, seen);
        var rest :- Walk(keys, keys[i].parent, seen + {parent});
        Ok([parent] + rest)
  }

  lemma WalkShrinks(keys: seq<TrustKey>, i: nat, seen: set<string>)
    requires i < |keys| && keys[i].keyID !in seen
    ensures |Ids(keys) - (seen + {keys[i].keyID})| < |Ids(keys) - seen|
  {
    assert keys[i].keyID in Ids(keys);
    assert Ids(keys) - (seen + {keys[i].keyID}) == (Ids(keys) - seen) - {keys[i].keyID};
  }

  function Reverse(s: seq<string>): seq<string> {
    if s == [] then [] else Reverse(s[1..]) + [s[0]]
  }

  function Verify(keys: seq<TrustKey>, m: Manifest): Result<Verified, Error> {
    var checked :- CheckedKeys(keys);
    var i :- Find(checked, m.keyID, m.fingerprint);
    var key :- CheckKey(checked[i], m.generatedAt);
    var up :- Walk(checked, key.parent, {key.keyID});
    Ok(Verified(key, Reverse([key.keyID] + up)))
  }
}
