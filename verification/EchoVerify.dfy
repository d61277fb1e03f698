/** The independent verifier of checkpoint bundles and checkpoint chains. */
module EchoVerify {
  import opened JsonDocuments
  import opened Merkle
  import opened Text
  import opened Wrappers

  datatype Verified = Verified(sequence: int, checkpointId: string, digest: string, previous: Option<string>,
                               items: seq<Item>, keyId: string, legacySignature: bool)

  datatype VerifyError =
    | DigestShape | BundleSchema | ManifestSchema | PublicKeyMissing | PublicKeySchema | PublicKeyPurpose
    | AlgorithmMismatch | KeyText | KeyLength | FingerprintUntrusted | KeyIdMissing | KeyIdMismatch
    | BadSequence | IssuerMismatch | CheckpointIdMissing | NoEvents | EventCountMismatch
    | EventShape | EventOrdinal | EventIdInvalid | DuplicateEvent | EventsUnsorted
    | RootMismatch | DigestMismatch | SignatureSchema | SignatureText | SignatureLength | BadSignature
    | NoBundles | ChainStart | SequenceGap | PredecessorMismatch | ProvenanceLost

  const CHECKPOINT_SCHEMA := "WS-ECHO-CHECKPOINT-V1"
  const BUNDLE_SCHEMA := "WS-ECHO-CHECKPOINT-BUNDLE-V1"
  const SIGNATURE_INPUT_SCHEMA := "WS-ECHO-CHECKPOINT-SIGNATURE-DIGEST-V1"
  const PUBLIC_KEY_SCHEMA := "WS-ECHO-CHECKPOINT-PUBLIC-KEY-V1"
  const ISSUER := "ECHO_SENTINEL_LINK"
  const PURPOSE := "PROVENANCE_CHECKPOINT_SIGNING"
  const ED25519 := "Ed25519"
  const KEY_BYTES := 32
  const SIGNATURE_BYTES := 64

  // ----- fields of a document -----

  predicate IsDigest(v: Json) {
    v.JStr? && IsSha256(v.s)
  }

  function ManifestOf(bundle: Json): Json {
    Get(FieldsOf(bundle), Manifest)
  }

  function ManifestField(bundle: Json, field: Field): Json {
    Get(FieldsOf(ManifestOf(bundle)), field)
  }

  function KeyField(bundle: Json, field: Field): Json {
    Get(FieldsOf(Get(FieldsOf(bundle), PublicKey)), field)
  }

  function EventsOf(bundle: Json): seq<Json> {
    var events := ManifestField(bundle, Events);
    if events.JArr? then events.items else []
  }

  function SignatureInput(digest: string): string {
    SIGNATURE_INPUT_SCHEMA + "\0" + digest
  }

  // ----- one bundle -----

  /** Schemas, public key, fingerprints and identifiers, in the order the verifier reports them. */
  function HeaderError(env: Env, bundle: Json, fingerprint: string): Option<VerifyError> {
    var key := KeyField(bundle, PublicKeyText);
    if !IsSha256(fingerprint) then Some(DigestShape)
    else if Get(FieldsOf(bundle), Schema) != JStr(BUNDLE_SCHEMA) then Some(BundleSchema)
    else if ManifestField(bundle, Schema) != JStr(CHECKPOINT_SCHEMA) then Some(ManifestSchema)
    else if !Get(FieldsOf(bundle), PublicKey).JObj? then Some(PublicKeyMissing)
    else if KeyField(bundle, Schema) != JStr(PUBLIC_KEY_SCHEMA) then Some(PublicKeySchema)
    else if KeyField(bundle, Issuer) != JStr(ISSUER) || KeyField(bundle, Purpose) != JStr(PURPOSE)
    then Some(PublicKeyPurpose)
    else if KeyField(bundle, Algorithm) != JStr(ED25519) || ManifestField(bundle, Algorithm) != JStr(ED25519)
    then Some(AlgorithmMismatch)
    else if !IsText(key) then Some(KeyText)
    else if |key.s| != KEY_BYTES then Some(KeyLength)
    else if !IsDigest(KeyField(bundle, Fingerprint)) || !IsDigest(ManifestField(bundle, KeyFingerprint))
    then Some(DigestShape)
    else if !(JStr(env.sha(key.s)) == KeyField(bundle, Fingerprint) == ManifestField(bundle, KeyFingerprint)
              == JStr(fingerprint))
    then Some(FingerprintUntrusted)
    else if !IsText(KeyField(bundle, KeyId)) then Some(KeyIdMissing)
    else if ManifestField(bundle, KeyId) != KeyField(bundle, KeyId) then Some(KeyIdMismatch)
    else PositionError(bundle)
  }

  function PositionError(bundle: Json): Option<VerifyError> {
    var sequence, previous := ManifestField(bundle, Sequence), ManifestField(bundle, PreviousCheckpoint);
    if !sequence.JInt? || sequence.value < 1 then Some(BadSequence)
    else if ManifestField(bundle, Issuer) != JStr(ISSUER) then Some(IssuerMismatch)
    else if !IsText(ManifestField(bundle, CheckpointId)) then Some(CheckpointIdMissing)
    else if previous != JNull && !IsDigest(previous) then Some(DigestShape)
    else if EventsOf(bundle) == [] then Some(NoEvents)
    else if !EqualsCount(ManifestField(bundle, EventCount), |EventsOf(bundle)|) then Some(EventCountMismatch)
    else None
  }

  function Ids(items: seq<Item>): set<string> {
    set k | 0 <= k < |items| :: items[k].id
  }

  function ReadItem(before: seq<Item>, v: Json): Result<Item, VerifyError> {
    if !v.JObj? || v.fields.Keys != {OrdinalField, EventId, SemanticSha256} then Failure(EventShape)
    else if !EqualsCount(v.fields[OrdinalField], |before| + 1) then Failure(EventOrdinal)
    else if !IsText(v.fields[EventId]) then Failure(EventIdInvalid)
    else if v.fields[EventId].s in Ids(before) then Failure(DuplicateEvent)
    else if before != [] && !Less(before[|before| - 1].id, v.fields[EventId].s) then Failure(EventsUnsorted)
    else if !IsDigest(v.fields[SemanticSha256]) then Failure(DigestShape)
    else Success(Item(|before| + 1, v.fields[EventId].s, v.fields[SemanticSha256].s))
  }

  function ReadItems(events: seq<Json>): Result<seq<Item>, VerifyError> {
    if events == [] then Success([]) else
      var before := ReadItems(events[..|events| - 1]);
      if before.Failure? then before else
        var item := ReadItem(before.value, events[|events| - 1]);
        if item.Failure? then Failure(item.error) else Success(before.value + [item.value])
  }

  /** Merkle root, manifest digest and signature. */
  function SealError(env: Env, bundle: Json, items: seq<Item>): Option<VerifyError>
    requires items != []
  {
    var text := env.dump(ManifestOf(bundle));
    var digest := env.sha(text);
    var schema := Get(FieldsOf(bundle), SignatureInputSchema);
    var signature := Get(FieldsOf(bundle), Signature);
    var key := KeyField(bundle, PublicKeyText);
    if ManifestField(bundle, MerkleRootSha256) != JStr(Root(env.sha, items)) then Some(RootMismatch)
    else if Get(FieldsOf(bundle), CheckpointSha256) != JStr(digest) then Some(DigestMismatch)
    else if schema != JNull && schema != JStr(SIGNATURE_INPUT_SCHEMA) then Some(SignatureSchema)
    else if !IsText(signature) then Some(SignatureText)
    else if |signature.s| != SIGNATURE_BYTES then Some(SignatureLength)
    else if !env.check(if key.JStr? then key.s else "", signature.s,
                       if schema == JNull then text else SignatureInput(digest)) then Some(BadSignature)
    else None
  }

  function BundleVerdict(env: Env, bundle: Json, fingerprint: string): Result<Verified, VerifyError> {
    var header := HeaderError(env, bundle, fingerprint);
    if header.Some? then Failure(header.value) else
      var items := ReadItems(EventsOf(bundle));
      if items.Failure? then Failure(items.error) else
        ReadItemsSound(EventsOf(bundle));
        var seal := SealError(env, bundle, items.value);
        if seal.Some? then Failure(seal.value) else Success(Summary(env, bundle, items.value))
  }

  function Summary(env: Env, bundle: Json, items: seq<Item>): Verified
    requires PositionError(bundle) == None && IsText(KeyField(bundle, KeyId))
  {
    var previous := ManifestField(bundle, PreviousCheckpoint);
    Verified(ManifestField(bundle, Sequence).value, ManifestField(bundle, CheckpointId).s,
             env.sha(env.dump(ManifestOf(bundle))), if previous.JStr? then Some(previous.s) else None,
             items, KeyField(bundle, KeyId).s, Get(FieldsOf(bundle), SignatureInputSchema) == JNull)
  }

  // ----- the event list -----

  ghost predicate SortedItems(items: seq<Item>) {
    forall i, j :: 0 <= i < j < |items| ==> Less(items[i].id, items[j].id)
  }

  ghost predicate WellFormedItems(items: seq<Item>) {
    LeavesValid(items) && Ordinal(items) && SortedItems(items)
  }

  /** The one-pass comparison with the previous event gives a list sorted throughout. */
  lemma {:induction false} ReadItemsSound(events: seq<Json>)
    requires ReadItems(events).Success?
    ensures WellFormedItems(ReadItems(events).value) && |ReadItems(events).value| == |events|
    decreases |events|
  {
    hide EqualsCount, IsSha256;
    if events == [] {
    } else {
      var before := ReadItems(events[..|events| - 1]).value;
      ReadItemsSound(events[..|events| - 1]);
      var item := ReadItem(before, events[|events| - 1]).value;
      forall i | 0 <= i < |before| ensures Less(before[i].id, item.id) {
        if i < |before| - 1 {
          LessTransitive(before[i].id, before[|before| - 1].id, item.id);
        }
      }
    }
  }

  lemma SortedAreDistinct(items: seq<Item>)
    requires SortedItems(items)
    ensures DistinctIds(items)
  {
    forall i, j | 0 <= i < j < |items| ensures items[i].id != items[j].id {
      if items[i].id == items[j].id {
        LessIrreflexive(items[i].id);
      }
    }
  }

  /** Two accepted bundles with one Merkle root certify the same events. */
  lemma SameRootSameEvents(env: Env, b: Json, c: Json, fp: string, fp': string)
    requires env.Faithful() && BundleVerdict(env, b, fp).Success? && BundleVerdict(env, c, fp').Success?
    requires ManifestField(b, MerkleRootSha256) == ManifestField(c, MerkleRootSha256)
    requires var xs, ys := BundleVerdict(env, b, fp).value.items, BundleVerdict(env, c, fp').value.items;
             xs != [] && ys != [] && CollisionFree(env.sha, RootTree(xs).Texts(env.sha) + RootTree(ys).Texts(env.sha))
    ensures BundleVerdict(env, b, fp).value.items == BundleVerdict(env, c, fp').value.items
  {
    hide HeaderError, ReadItems, Root, RootTree, IsSha256;
    var xs, ys := BundleVerdict(env, b, fp).value.items, BundleVerdict(env, c, fp').value.items;
    ReadItemsSound(EventsOf(b));
    ReadItemsSound(EventsOf(c));
    SortedAreDistinct(xs);
    SortedAreDistinct(ys);
    RootBindsEvents(env.sha, xs, ys);
  }

  // ----- a chain of bundles -----

  /** The dictionary built from a list of events: a later event overwrites an earlier one. */
  function DigestMap(items: seq<Item>): map<string, string> {
    if items == [] then map[] else
      DigestMap(items[..|items| - 1])[items[|items| - 1].id := items[|items| - 1].digest]
  }

  ghost predicate KeepsAll(prior: map<string, string>, now: map<string, string>) {
    forall id :: id in prior ==> id in now && now[id] == prior[id]
  }

  ghost function LinkError(verified: seq<Verified>, current: Verified): Option<VerifyError> {
    if verified == [] then
      if current.sequence != 1 || current.previous != None then Some(ChainStart) else None
    else
      var last := verified[|verified| - 1];
      if current.sequence != last.sequence + 1 then Some(SequenceGap)
      else if current.previous != Some(last.digest) then Some(PredecessorMismatch)
      else if !KeepsAll(DigestMap(last.items), DigestMap(current.items)) then Some(ProvenanceLost)
      else None
  }

  ghost function Links(env: Env, bundles: seq<Json>, fingerprint: string): Result<seq<Verified>, VerifyError> {
    if bundles == [] then Success([]) else
      var before := Links(env, bundles[..|bundles| - 1], fingerprint);
      if before.Failure? then before else ExtendChain(env, before.value, bundles[|bundles| - 1], fingerprint)
  }

  ghost function ExtendChain(env: Env, before: seq<Verified>, bundle: Json, fingerprint: string):
      Result<seq<Verified>, VerifyError>
  {
    var current := BundleVerdict(env, bundle, fingerprint);
    if current.Failure? then Failure(current.error)
    else if LinkError(before, current.value).Some? then Failure(LinkError(before, current.value).value)
    else Success(before + [current.value])
  }

  ghost function ChainVerdict(env: Env, bundles: seq<Json>, fingerprint: string): Result<seq<Verified>, VerifyError> {
    if bundles == [] then Failure(NoBundles) else Links(env, bundles, fingerprint)
  }

  // ----- the verifier's loops -----

  method VerifyBundle(env: Env, bundle: Json, fingerprint: string) returns (r: Result<Verified, VerifyError>)
    ensures r == BundleVerdict(env, bundle, fingerprint)
  {
    hide HeaderError, SealError, ReadItem, Summary;
    var header := CheckHeader(env, bundle, fingerprint);
    if header.Some? {
      return Failure(header.value);
    }
    var events := EventsOf(bundle);
    var seen: set<string> := {};
    var items: seq<Item> := [];
    for k := 0 to |events|
      invariant ReadItems(events[..k]) == Success(items) && seen == Ids(items)
    {
      assert events[..k + 1][..k] == events[..k];
      var item := CheckItem(items, seen, events[k]);
      if item.Failure? {
        ReadFailureSticks(events, k + 1);
        return Failure(item.error);
      }
      IdsGrow(items, item.value);
      items := items + [item.value];
      seen := seen + {item.value.id};
    }
    assert events[..|events|] == events;
    ReadItemsSound(events);
    HeaderNonEmpty(env, bundle, fingerprint);
    var seal := CheckSeal(env, bundle, items);
    if seal.Some? {
      return Failure(seal.value);
    }
    var summary := Summarise(env, bundle, items);
    return Success(summary);
  }

  /** What the verifier returns of an accepted bundle. */
  method Summarise(env: Env, bundle: Json, items: seq<Item>) returns (v: Verified)
    requires PositionError(bundle) == None && IsText(KeyField(bundle, KeyId))
    ensures v == Summary(env, bundle, items)
  {
    var manifest := FieldsOf(ManifestOf(bundle));
    var digest := env.sha(env.dump(ManifestOf(bundle)));
    var previous: Option<string> := None;
    if PreviousCheckpoint in manifest && manifest[PreviousCheckpoint].JStr? {
      previous := Some(manifest[PreviousCheckpoint].s);
    }
    var legacy := Get(FieldsOf(bundle), SignatureInputSchema).JNull?;
    return Verified(manifest[Sequence].value, manifest[CheckpointId].s, digest, previous, items,
                    Get(FieldsOf(Get(FieldsOf(bundle), PublicKey)), KeyId).s, legacy);
  }

  method CheckHeader(env: Env, bundle: Json, fingerprint: string) returns (error: Option<VerifyError>)
    ensures error == HeaderError(env, bundle, fingerprint)
  {
    hide PositionError;
    if !IsSha256(fingerprint) {
      return Some(DigestShape);
    }
    var top, manifest := FieldsOf(bundle), ManifestOf(bundle);
    if Get(top, Schema) != JStr("WS-ECHO-CHECKPOINT-BUNDLE-V1") {
      return Some(BundleSchema);
    }
    if Get(FieldsOf(manifest), Schema) != JStr("WS-ECHO-CHECKPOINT-V1") {
      return Some(ManifestSchema);
    }
    if !Get(top, PublicKey).JObj? {
      return Some(PublicKeyMissing);
    }
    var public := Get(top, PublicKey).fields;
    if Get(public, Schema) != JStr("WS-ECHO-CHECKPOINT-PUBLIC-KEY-V1") {
      return Some(PublicKeySchema);
    }
    if Get(public, Issuer) != JStr("ECHO_SENTINEL_LINK")
       || Get(public, Purpose) != JStr("PROVENANCE_CHECKPOINT_SIGNING")
    {
      return Some(PublicKeyPurpose);
    }
    if Get(public, Algorithm) != JStr("Ed25519") || Get(FieldsOf(manifest), Algorithm) != JStr("Ed25519") {
      return Some(AlgorithmMismatch);
    }
    var key := Get(public, PublicKeyText);
    if !IsText(key) {
      return Some(KeyText);
    }
    if |key.s| != 32 {
      return Some(KeyLength);
    }
    var actual := JStr(env.sha(key.s));
    if !IsDigest(Get(public, Fingerprint)) || !IsDigest(Get(FieldsOf(manifest), KeyFingerprint)) {
      return Some(DigestShape);
    }
    if actual != Get(public, Fingerprint) || actual != Get(FieldsOf(manifest), KeyFingerprint)
       || actual != JStr(fingerprint)
    {
      return Some(FingerprintUntrusted);
    }
    if !IsText(Get(public, KeyId)) {
      return Some(KeyIdMissing);
    }
    if Get(FieldsOf(manifest), KeyId) != Get(public, KeyId) {
      return Some(KeyIdMismatch);
    }
    error := CheckPosition(bundle);
  }

  method CheckPosition(bundle: Json) returns (error: Option<VerifyError>)
    ensures error == PositionError(bundle)
  {
    hide EqualsCount, SameValue;
    var manifest := FieldsOf(ManifestOf(bundle));
    var sequence := Get(manifest, Sequence);
    if !sequence.JInt? || sequence.value <= 0 {
      return Some(BadSequence);
    }
    if Get(manifest, Issuer) != JStr("ECHO_SENTINEL_LINK") {
      return Some(IssuerMismatch);
    }
    if !IsText(Get(manifest, CheckpointId)) {
      return Some(CheckpointIdMissing);
    }
    var previous := Get(manifest, PreviousCheckpoint);
    if !previous.JNull? && !IsDigest(previous) {
      return Some(DigestShape);
    }
    var events := Get(manifest, Events);
    if !events.JArr? || |events.items| == 0 {
      return Some(NoEvents);
    }
    CountIsSameValue(Get(manifest, EventCount), |events.items|);
    if !SameValue(Get(manifest, EventCount), JInt(|events.items|)) {
      return Some(EventCountMismatch);
    }
    return None;
  }

  method CheckSeal(env: Env, bundle: Json, items: seq<Item>) returns (error: Option<VerifyError>)
    requires items != [] && LeavesValid(items) && IsText(KeyField(bundle, PublicKeyText))
    ensures error == SealError(env, bundle, items)
  {
    var top, manifest := FieldsOf(bundle), ManifestOf(bundle);
    var root := MerkleRoot(env.sha, items);
    if Get(FieldsOf(manifest), MerkleRootSha256) != JStr(root.value) {
      return Some(RootMismatch);
    }
    var text := env.dump(manifest);
    var digest := env.sha(text);
    if Get(top, CheckpointSha256) != JStr(digest) {
      return Some(DigestMismatch);
    }
    var schema := Get(top, SignatureInputSchema);
    var input: string;
    if schema.JNull? {
      input := text;
    } else if schema == JStr("WS-ECHO-CHECKPOINT-SIGNATURE-DIGEST-V1") {
      input := "WS-ECHO-CHECKPOINT-SIGNATURE-DIGEST-V1" + "\0" + digest;
    } else {
      return Some(SignatureSchema);
    }
    var signature := Get(top, Signature);
    if !IsText(signature) {
      return Some(SignatureText);
    }
    if |signature.s| != 64 {
      return Some(SignatureLength);
    }
    if !env.check(KeyField(bundle, PublicKeyText).s, signature.s, input) {
      return Some(BadSignature);
    }
    return None;
  }

  method CheckItem(before: seq<Item>, seen: set<string>, v: Json) returns (r: Result<Item, VerifyError>)
    requires seen == Ids(before)
    ensures r == ReadItem(before, v)
  {
    if !v.JObj? || v.fields.Keys != {OrdinalField, EventId, SemanticSha256} {
      return Failure(EventShape);
    }
    if !EqualsCount(v.fields[OrdinalField], |before| + 1) {
      return Failure(EventOrdinal);
    }
    var id := v.fields[EventId];
    if !IsText(id) {
      return Failure(EventIdInvalid);
    }
    if id.s in seen {
      return Failure(DuplicateEvent);
    }
    if before != [] && !Less(before[|before| - 1].id, id.s) {
      return Failure(EventsUnsorted);
    }
    var digest := v.fields[SemanticSha256];
    if !IsDigest(digest) {
      return Failure(DigestShape);
    }
    return Success(Item(|before| + 1, id.s, digest.s));
  }

  lemma HeaderNonEmpty(env: Env, bundle: Json, fingerprint: string)
    requires HeaderError(env, bundle, fingerprint) == None
    ensures PositionError(bundle) == None && EventsOf(bundle) != [] && IsText(KeyField(bundle, KeyId))
    ensures IsText(KeyField(bundle, PublicKeyText))
  {
  }

  lemma IdsGrow(items: seq<Item>, item: Item)
    ensures Ids(items + [item]) == Ids(items) + {item.id}
  {
    assert (items + [item])[|items|] == item;
    forall id | id in Ids(items) ensures id in Ids(items + [item]) {
      var k :| 0 <= k < |items| && items[k].id == id;
      assert (items + [item])[k].id == id;
    }
  }

  lemma {:induction false} ReadFailureSticks(events: seq<Json>, k: nat)
    requires k <= |events| && ReadItems(events[..k]).Failure?
    ensures ReadItems(events) == ReadItems(events[..k])
    decreases |events|
  {
    hide ReadItem;
    if k == |events| {
      assert events[..k] == events;
    } else {
      assert events[..|events| - 1][..k] == events[..k];
      ReadFailureSticks(events[..|events| - 1], k);
    }
  }

  method VerifyChain(env: Env, bundles: seq<Json>, fingerprint: string) returns (r: Result<seq<Verified>, VerifyError>)
    ensures r == ChainVerdict(env, bundles, fingerprint)
  {
    hide BundleVerdict, DigestMap;
    if bundles == [] {
      return Failure(NoBundles);
    }
    var verified: seq<Verified> := [];
    for k := 0 to |bundles|
      invariant Links(env, bundles[..k], fingerprint) == Success(verified)
    {
      assert bundles[..k + 1][..k] == bundles[..k];
      var current := VerifyBundle(env, bundles[k], fingerprint);
      if current.Failure? {
        LinkFailureSticks(env, bundles, fingerprint, k + 1);
        return Failure(current.error);
      }
      var error := CheckLink(verified, current.value);
      if error.Some? {
        LinkFailureSticks(env, bundles, fingerprint, k + 1);
        return Failure(error.value);
      }
      verified := verified + [current.value];
    }
    assert bundles[..|bundles|] == bundles;
    return Success(verified);
  }

  method CheckLink(verified: seq<Verified>, current: Verified) returns (error: Option<VerifyError>)
    ensures error == LinkError(verified, current)
  {
    if verified == [] {
      return if current.sequence != 1 || current.previous != None then Some(ChainStart) else None;
    }
    var last := verified[|verified| - 1];
    if current.sequence != last.sequence + 1 {
      return Some(SequenceGap);
    }
    if current.previous != Some(last.digest) {
      return Some(PredecessorMismatch);
    }
    var prior := ToDictionary(last.items);
    var now := ToDictionary(current.items);
    var left := prior.Keys;
    while left != {}
      invariant left <= prior.Keys
      invariant forall id :: id in prior && id !in left ==> id in now && now[id] == prior[id]
      decreases |left|
    {
      var id :| id in left;
      if id !in now || now[id] != prior[id] {
        return Some(ProvenanceLost);
      }
      left := left - {id};
    }
    return None;
  }

  method ToDictionary(items: seq<Item>) returns (digests: map<string, string>)
    ensures digests == DigestMap(items)
  {
    digests := map[];
    for k := 0 to |items|
      invariant digests == DigestMap(items[..k])
    {
      assert items[..k + 1][..k] == items[..k];
      digests := digests[items[k].id := items[k].digest];
    }
    assert items[..|items|] == items;
  }

  lemma {:induction false} LinkFailureSticks(env: Env, bundles: seq<Json>, fingerprint: string, k: nat)
    requires k <= |bundles| && Links(env, bundles[..k], fingerprint).Failure?
    ensures Links(env, bundles, fingerprint) == Links(env, bundles[..k], fingerprint)
    decreases |bundles|
  {
    hide ExtendChain;
    if k == |bundles| {
      assert bundles[..k] == bundles;
    } else {
      assert bundles[..|bundles| - 1][..k] == bundles[..k];
      LinkFailureSticks(env, bundles[..|bundles| - 1], fingerprint, k);
    }
  }

  // ----- what an accepted chain proves -----

  /** What acceptance of one bundle says about its manifest. */
  lemma VerdictFields(env: Env, bundle: Json, fingerprint: string)
    requires BundleVerdict(env, bundle, fingerprint).Success?
    ensures var v := BundleVerdict(env, bundle, fingerprint).value;
            && v.digest == env.sha(env.dump(ManifestOf(bundle)))
            && ManifestField(bundle, Sequence) == JInt(v.sequence)
            && ManifestField(bundle, PreviousCheckpoint) == (if v.previous.Some? then JStr(v.previous.value) else JNull)
            && v.items != [] && WellFormedItems(v.items)
  {
    hide SealError, ReadItems, WellFormedItems;
    HeaderNonEmpty(env, bundle, fingerprint);
    hide HeaderError;
    ReadItemsSound(EventsOf(bundle));
  }

  /** Position k of an accepted chain carries sequence number k + 1 and names the digest of position k - 1. */
  lemma {:induction false} LinkAt(env: Env, bundles: seq<Json>, fp: string, k: nat)
    requires Links(env, bundles, fp).Success? && k < |bundles|
    ensures var vs := Links(env, bundles, fp).value;
            && |vs| == |bundles| && BundleVerdict(env, bundles[k], fp) == Success(vs[k]) && vs[k].sequence == k + 1
            && vs[k].previous == (if k == 0 then None else Some(vs[k - 1].digest))
            && (k > 0 ==> KeepsAll(DigestMap(vs[k - 1].items), DigestMap(vs[k].items)))
    decreases |bundles|
  {
    hide BundleVerdict, DigestMap, KeepsAll;
    var init := bundles[..|bundles| - 1];
    if k < |init| {
      LinkAt(env, init, fp, k);
    } else if k > 0 {
      LinkAt(env, init, fp, k - 1);
    } else {
      assert init == [];
    }
  }

  /** Every event of an earlier checkpoint is present, with the same digest, in every later one. */
  lemma {:induction false} EventsPersist(env: Env, bundles: seq<Json>, fp: string, i: nat, j: nat)
    requires Links(env, bundles, fp).Success? && i <= j < |bundles|
    ensures var vs := Links(env, bundles, fp).value;
            |vs| == |bundles| && KeepsAll(DigestMap(vs[i].items), DigestMap(vs[j].items))
    decreases j
  {
    hide Links, DigestMap, KeepsAll, BundleVerdict;
    var vs := Links(env, bundles, fp).value;
    LinkAt(env, bundles, fp, j);
    if i < j {
      EventsPersist(env, bundles, fp, i, j - 1);
      KeepsAllTransitive(DigestMap(vs[i].items), DigestMap(vs[j - 1].items), DigestMap(vs[j].items));
    } else {
      KeepsAllReflexive(DigestMap(vs[i].items));
    }
  }

  lemma KeepsAllTransitive(a: map<string, string>, b: map<string, string>, c: map<string, string>)
    requires KeepsAll(a, b) && KeepsAll(b, c)
    ensures KeepsAll(a, c)
  {
  }

  lemma KeepsAllReflexive(a: map<string, string>)
    ensures KeepsAll(a, a)
  {
  }

  lemma {:induction false} DigestMapSource(items: seq<Item>, id: string)
    requires id in DigestMap(items)
    ensures exists k :: 0 <= k < |items| && items[k].id == id && items[k].digest == DigestMap(items)[id]
    decreases |items|
  {
    var init, last := items[..|items| - 1], items[|items| - 1];
    if last.id == id {
      assert items[|items| - 1].id == id;
    } else {
      DigestMapSource(init, id);
      var k :| 0 <= k < |init| && init[k].id == id && init[k].digest == DigestMap(init)[id];
      assert items[k].id == id;
    }
  }

  lemma {:induction false} DigestMapMember(items: seq<Item>, k: nat)
    requires DistinctIds(items) && k < |items|
    ensures items[k].id in DigestMap(items) && DigestMap(items)[items[k].id] == items[k].digest
    decreases |items|
  {
    if k == |items| - 1 {
    } else {
      DigestMapMember(items[..|items| - 1], k);
    }
  }

  ghost predicate Certifies(items: seq<Item>, id: string, digest: string) {
    exists k :: 0 <= k < |items| && items[k].id == id && items[k].digest == digest
  }

  /** An event certified by one checkpoint of an accepted chain is certified unchanged by every later one. */
  lemma CertifiedForever(env: Env, bundles: seq<Json>, fp: string, i: nat, j: nat, id: string,
                         digest: string)
    requires Links(env, bundles, fp).Success? && i <= j < |bundles|
    requires BundleVerdict(env, bundles[i], fp).Success? && BundleVerdict(env, bundles[j], fp).Success?
    requires Certifies(BundleVerdict(env, bundles[i], fp).value.items, id, digest)
    ensures Certifies(BundleVerdict(env, bundles[j], fp).value.items, id, digest)
  {
    hide Links, BundleVerdict, DigestMap, WellFormedItems;
    var vs := Links(env, bundles, fp).value;
    LinkAt(env, bundles, fp, i);
    LinkAt(env, bundles, fp, j);
    EventsPersist(env, bundles, fp, i, j);
    VerdictFields(env, bundles[i], fp);
    VerdictDistinct(vs[i].items);
    var k :| 0 <= k < |vs[i].items| && vs[i].items[k].id == id && vs[i].items[k].digest == digest;
    DigestMapMember(vs[i].items, k);
    DigestMapSource(vs[j].items, id);
  }

  lemma VerdictDistinct(items: seq<Item>)
    requires WellFormedItems(items)
    ensures DistinctIds(items)
  {
    SortedAreDistinct(items);
  }

  ghost function ManifestTexts(env: Env, bundles: seq<Json>): set<string> {
    set k | 0 <= k < |bundles| :: env.dump(ManifestOf(bundles[k]))
  }

  /** The last digest of an accepted chain determines its length and every manifest in it. */
  lemma LastDigestDeterminesChain(env: Env, xs: seq<Json>, ys: seq<Json>, fp: string, fp': string)
    requires env.Faithful() && xs != [] && ys != []
    requires CollisionFree(env.sha, ManifestTexts(env, xs) + ManifestTexts(env, ys))
    requires ChainVerdict(env, xs, fp).Success? && ChainVerdict(env, ys, fp').Success?
    requires var vs, ws := ChainVerdict(env, xs, fp).value, ChainVerdict(env, ys, fp').value;
             vs != [] && ws != [] && vs[|vs| - 1].digest == ws[|ws| - 1].digest
    ensures |xs| == |ys| && forall k :: 0 <= k < |xs| ==> ManifestOf(xs[k]) == ManifestOf(ys[k])
  {
    hide BundleVerdict, Links;
    LinkAt(env, xs, fp, |xs| - 1);
    LinkAt(env, ys, fp', |ys| - 1);
    SameDigestBackwards(env, xs, ys, fp, fp', |xs| - 1, |ys| - 1);
  }

  lemma {:induction false} SameDigestBackwards(env: Env, xs: seq<Json>, ys: seq<Json>, fp: string, fp': string,
                                               i: nat, j: nat)
    requires env.Faithful() && i < |xs| && j < |ys|
    requires CollisionFree(env.sha, ManifestTexts(env, xs) + ManifestTexts(env, ys))
    requires Links(env, xs, fp).Success? && Links(env, ys, fp').Success?
    requires var vs, ws := Links(env, xs, fp).value, Links(env, ys, fp').value;
             i < |vs| && j < |ws| && vs[i].digest == ws[j].digest
    ensures i == j && forall k :: 0 <= k <= i ==> ManifestOf(xs[k]) == ManifestOf(ys[k])
    decreases i
  {
    hide BundleVerdict, Links, WellFormedItems, KeepsAll, DigestMap, ManifestOf;
    LinkAt(env, xs, fp, i);
    LinkAt(env, ys, fp', j);
    VerdictFields(env, xs[i], fp);
    VerdictFields(env, ys[j], fp');
    assert env.dump(ManifestOf(xs[i])) in ManifestTexts(env, xs);
    assert env.dump(ManifestOf(ys[j])) in ManifestTexts(env, ys);
    DumpInjective(env, ManifestOf(xs[i]), ManifestOf(ys[j]));
    if i == 0 {
    } else {
      LinkAt(env, xs, fp, i - 1);
      LinkAt(env, ys, fp', j - 1);
      SameDigestBackwards(env, xs, ys, fp, fp', i - 1, j - 1);
    }
  }
}
