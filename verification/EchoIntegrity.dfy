/** The stored-checkpoint integrity check, and the proof that every run keeps it, and the verifier, satisfied. */
module EchoIntegrity {
  import opened EchoLedger
  import opened EchoStore
  import opened EchoVerify
  import opened JsonDocuments
  import opened Merkle
  import opened Text
  import opened Wrappers

  // ----- the check -----

  function StoredBundleOf(env: Env, row: Row): Json {
    var bundle := env.load(row.bundleJson);
    if bundle.Some? then bundle.value else JNull
  }

  function ReadsAsObject(env: Env, text: string): bool {
    var v := env.load(text);
    v.Some? && v.value.JObj?
  }

  predicate RowMatches(row: Row, bundle: Json, digest: string) {
    && ManifestField(bundle, CheckpointId) == JStr(row.checkpointId)
    && ManifestField(bundle, CreatedAt) == JStr(row.createdAt)
    && ManifestField(bundle, PreviousCheckpoint) == OptionalText(row.previous)
    && digest == row.digest
    && ManifestField(bundle, MerkleRootSha256) == JStr(row.root)
    && EqualsCount(ManifestField(bundle, EventCount), row.eventCount)
    && ManifestField(bundle, KeyId) == JStr(row.keyId)
    && ManifestField(bundle, KeyFingerprint) == JStr(row.fingerprint)
    && Get(FieldsOf(bundle), Signature) == JStr(row.signature)
  }

  function VerifiedRowError(env: Env, row: Row, members: seq<Item>, verified: Verified): Option<CheckpointError> {
    var bundle := StoredBundleOf(env, row);
    var manifest := ManifestOf(bundle);
    var copy := env.load(row.manifestJson);
    if copy.None? || !SameValue(copy.value, manifest) then Some(ManifestCopy)
    else if CreatedAt !in FieldsOf(manifest) || PreviousCheckpoint !in FieldsOf(manifest) then Some(MissingField)
    else if !RowMatches(row, bundle, verified.digest) then Some(RowMismatch)
    else if members != verified.items then Some(MembershipMismatch)
    else None
  }

  function RowError(env: Env, mgr: Manager, row: Row, position: nat, members: seq<Item>): Option<CheckpointError> {
    var bundle := StoredBundleOf(env, row);
    if row.sequence != position then Some(StoredSequenceGap)
    else if !ReadsAsObject(env, row.bundleJson) || !ReadsAsObject(env, row.manifestJson) then Some(MalformedJson)
    else
      var verdict := BundleVerdict(env, bundle, mgr.Key(env));
      if verdict.Failure? then Some(StoredBundle(verdict.error))
      else VerifiedRowError(env, row, members, verdict.value)
  }

  function Bundles(env: Env, rows: seq<Row>): (r: seq<Json>)
    ensures |r| == |rows|
  {
    seq(|rows|, (k: nat) requires k < |rows| => StoredBundleOf(env, rows[k]))
  }

  function FirstRowError(env: Env, mgr: Manager, db: Db, n: nat): Option<CheckpointError>
    requires n <= |db.rows|
  {
    if n == 0 then None else
      var before := FirstRowError(env, mgr, db, n - 1);
      if before.Some? then before else RowError(env, mgr, db.rows[n - 1], n, MembersOf(db, n))
  }

  /** The verified chain, empty when nothing has been checkpointed yet, or the first thing found wrong. */
  ghost function Integrity(env: Env, mgr: Manager, db: Db): Result<seq<Verified>, CheckpointError> {
    if mgr.keyId !in db.bindings || db.bindings[mgr.keyId] != mgr.Key(env) then Failure(BindingMismatch)
    else if db.rows == [] then Success([])
    else
      var error := FirstRowError(env, mgr, db, |db.rows|);
      if error.Some? then Failure(error.value) else
        var chain := ChainVerdict(env, Bundles(env, db.rows), mgr.Key(env));
        if chain.Failure? then Failure(StoredChain(chain.error)) else Success(chain.value)
  }

  method CheckIntegrity(manager: EchoCheckpointManager) returns (r: Result<seq<Verified>, CheckpointError>)
    ensures r == Integrity(manager.env, manager.mgr, manager.Contents())
  {
    hide VerifiedRowError, ChainVerdict, BundleVerdict;
    var env, mgr := manager.env, manager.mgr;
    var db := Db(Store(manager.store.events, manager.store.conflicts), manager.rows, manager.members, manager.bindings);
    if mgr.keyId !in db.bindings || db.bindings[mgr.keyId] != mgr.Key(env) {
      return Failure(BindingMismatch);
    }
    if db.rows == [] {
      return Success([]);
    }
    var bundles: seq<Json> := [];
    for k := 0 to |db.rows|
      invariant FirstRowError(env, mgr, db, k) == None
      invariant bundles == Bundles(env, db.rows)[..k]
    {
      var error := CheckRow(env, mgr, db.rows[k], k + 1, MembersOf(db, k + 1));
      if error.Some? {
        FirstErrorSticks(env, mgr, db, k + 1, |db.rows|);
        return Failure(error.value);
      }
      bundles := bundles + [StoredBundleOf(env, db.rows[k])];
    }
    assert bundles == Bundles(env, db.rows);
    assert db == manager.Contents();
    var chain := VerifyChain(env, bundles, mgr.Key(env));
    r := if chain.Failure? then Failure(StoredChain(chain.error)) else Success(chain.value);
  }

  method CheckRow(env: Env, mgr: Manager, row: Row, position: nat, members: seq<Item>)
    returns (error: Option<CheckpointError>)
    ensures error == RowError(env, mgr, row, position, members)
  {
    hide VerifiedRowError, BundleVerdict;
    if row.sequence != position {
      return Some(StoredSequenceGap);
    }
    if !ReadsAsObject(env, row.bundleJson) || !ReadsAsObject(env, row.manifestJson) {
      return Some(MalformedJson);
    }
    var verdict := VerifyBundle(env, StoredBundleOf(env, row), mgr.Key(env));
    if verdict.Failure? {
      return Some(StoredBundle(verdict.error));
    }
    error := CompareRow(env, row, members, verdict.value);
  }

  /** The stored copy, the columns and the membership rows against the verified bundle, in the order of the check. */
  method CompareRow(env: Env, row: Row, members: seq<Item>, verified: Verified) returns (error: Option<CheckpointError>)
    ensures error == VerifiedRowError(env, row, members, verified)
  {
    hide SameValue;
    var bundle := StoredBundleOf(env, row);
    var manifest := ManifestOf(bundle);
    var copy := env.load(row.manifestJson);
    if copy.None? || !SameValue(copy.value, manifest) {
      return Some(ManifestCopy);
    }
    if CreatedAt !in FieldsOf(manifest) || PreviousCheckpoint !in FieldsOf(manifest) {
      return Some(MissingField);
    }
    var comparisons := [(ManifestField(bundle, CheckpointId), JStr(row.checkpointId)),
                        (ManifestField(bundle, CreatedAt), JStr(row.createdAt)),
                        (ManifestField(bundle, PreviousCheckpoint), OptionalText(row.previous)),
                        (JStr(verified.digest), JStr(row.digest)),
                        (ManifestField(bundle, MerkleRootSha256), JStr(row.root)),
                        (ManifestField(bundle, EventCount), JInt(row.eventCount)),
                        (ManifestField(bundle, KeyId), JStr(row.keyId)),
                        (ManifestField(bundle, KeyFingerprint), JStr(row.fingerprint)),
                        (Get(FieldsOf(bundle), Signature), JStr(row.signature))];
    ComparisonsMatch(row, bundle, verified.digest, comparisons);
    for i := 0 to |comparisons|
      invariant forall j :: 0 <= j < i ==> SameValue(comparisons[j].0, comparisons[j].1)
    {
      if !SameValue(comparisons[i].0, comparisons[i].1) {
        return Some(RowMismatch);
      }
    }
    if members != verified.items {
      return Some(MembershipMismatch);
    }
    return None;
  }

  lemma ComparisonsMatch(row: Row, bundle: Json, digest: string, comparisons: seq<(Json, Json)>)
    requires comparisons == [(ManifestField(bundle, CheckpointId), JStr(row.checkpointId)),
                             (ManifestField(bundle, CreatedAt), JStr(row.createdAt)),
                             (ManifestField(bundle, PreviousCheckpoint), OptionalText(row.previous)),
                             (JStr(digest), JStr(row.digest)),
                             (ManifestField(bundle, MerkleRootSha256), JStr(row.root)),
                             (ManifestField(bundle, EventCount), JInt(row.eventCount)),
                             (ManifestField(bundle, KeyId), JStr(row.keyId)),
                             (ManifestField(bundle, KeyFingerprint), JStr(row.fingerprint)),
                             (Get(FieldsOf(bundle), Signature), JStr(row.signature))]
    ensures RowMatches(row, bundle, digest) <==>
            forall j :: 0 <= j < |comparisons| ==> SameValue(comparisons[j].0, comparisons[j].1)
  {
    forall j | 0 <= j < |comparisons| && j != 5
      ensures SameValue(comparisons[j].0, comparisons[j].1) <==> comparisons[j].0 == comparisons[j].1
    {
      TextIsSameValue(comparisons[j].0, comparisons[j].1);
    }
    CountIsSameValue(ManifestField(bundle, EventCount), row.eventCount);
    hide SameValue, EqualsCount, ManifestField;
    assert comparisons[5] == (ManifestField(bundle, EventCount), JInt(row.eventCount));
    if forall j :: 0 <= j < |comparisons| ==> SameValue(comparisons[j].0, comparisons[j].1) {
      assert comparisons[0].0 == comparisons[0].1 && comparisons[1].0 == comparisons[1].1;
      assert comparisons[2].0 == comparisons[2].1 && comparisons[3].0 == comparisons[3].1;
      assert comparisons[4].0 == comparisons[4].1 && SameValue(comparisons[5].0, comparisons[5].1);
      assert comparisons[6].0 == comparisons[6].1 && comparisons[7].0 == comparisons[7].1;
      assert comparisons[8].0 == comparisons[8].1;
    }
  }

  lemma TextIsSameValue(a: Json, b: Json)
    requires b.JStr? || b.JNull?
    ensures SameValue(a, b) <==> a == b
  {
  }

  lemma {:induction false} FirstErrorSticks(env: Env, mgr: Manager, db: Db, k: nat, n: nat)
    requires k <= n <= |db.rows| && FirstRowError(env, mgr, db, k).Some?
    ensures FirstRowError(env, mgr, db, n) == FirstRowError(env, mgr, db, k)
    decreases n
  {
    hide RowError;
    if k == n {
    } else {
      FirstErrorSticks(env, mgr, db, k, n - 1);
    }
  }

  // ----- what every run keeps -----

  ghost predicate StoreKeeps(items: seq<Item>, store: Store) {
    forall k :: 0 <= k < |items| ==> items[k].id in store.events && store.events[items[k].id].digest == items[k].digest
  }

  /** Row k is exactly what checkpoint creation writes for its membership rows, and carries a valid signature. */
  ghost predicate RowOk(env: Env, mgr: Manager, db: Db, k: nat)
    requires k < |db.rows|
  {
    var row, items := db.rows[k], MembersOf(db, k + 1);
    && k + 1 in db.members && items != [] && WellFormedItems(items)
    && row == NewRow(env, mgr, k + 1, LastDigest(db.rows[..k]), items, row.createdAt, row.signature)
    && |row.signature| == SIGNATURE_BYTES
    && env.check(mgr.publicKey, row.signature, SignatureInput(row.digest))
    && KeepsAll(DigestMap(MembersOf(db, k)), DigestMap(items))
  }

  ghost predicate Invariant(env: Env, mgr: Manager, db: Db) {
    && Healthy(env, db.store)
    && mgr.keyId in db.bindings && db.bindings[mgr.keyId] == mgr.Key(env)
    && Sequenced(db.rows)
    && (forall s :: s in db.members ==> 1 <= s <= |db.rows|)
    && (forall k :: 0 <= k < |db.rows| ==> RowOk(env, mgr, db, k))
    && StoreKeeps(MembersOf(db, |db.rows|), db.store)
  }

  // ----- the current events of a healthy store -----

  function Listing(events: map<string, StoredEvent>, ids: seq<string>): (r: seq<Item>)
    requires forall id :: id in ids ==> id in events
    ensures |r| == |ids|
  {
    seq(|ids|, (i: nat) requires i < |ids| => Item(i + 1, ids[i], events[ids[i]].digest))
  }

  ghost function Current(store: Store): seq<Item> {
    SortedElements(store.events.Keys);
    Listing(store.events, Sorted(store.events.Keys))
  }

  lemma HealthyItem(env: Env, ordinal: nat, id: string, row: StoredEvent)
    requires RowHealthy(env, id, row)
    ensures CurrentItem(env, ordinal, id, row) == Success(Item(ordinal, id, row.digest))
  {
    hide SemanticDigest, IsEventId;
  }

  lemma {:induction false} HealthyItems(env: Env, store: Store, ids: seq<string>)
    requires Healthy(env, store) && forall id :: id in ids ==> id in store.events
    ensures CurrentItems(env, store.events, ids) == Success(Listing(store.events, ids))
    decreases |ids|
  {
    hide RowHealthy, CurrentItem;
    if ids == [] {
    } else {
      var init, id := ids[..|ids| - 1], ids[|ids| - 1];
      HealthyItems(env, store, init);
      HealthyItem(env, |ids|, id, store.events[id]);
      assert Listing(store.events, ids) == Listing(store.events, init) + [Item(|ids|, id, store.events[id].digest)];
    }
  }

  lemma HealthyLeaf(env: Env, id: string, row: StoredEvent, ordinal: int)
    requires env.Faithful() && RowHealthy(env, id, row)
    ensures LeafValid(Item(ordinal, id, row.digest))
  {
    hide SemanticDocument, IsSha256;
    var audit := Reloaded(env, row).value;
    assert EventIdOf(audit) == Success(id) && IsEventId(id);
    assert row.digest == env.sha(env.dump(SemanticDocument(audit)));
  }

  lemma ListingWellFormed(env: Env, store: Store)
    requires env.Faithful() && Healthy(env, store)
    ensures WellFormedItems(Current(store))
  {
    hide RowHealthy, LeafValid, Less, Sorted;
    var ids := Sorted(store.events.Keys);
    SortedElements(store.events.Keys);
    SortedIsStrict(store.events.Keys);
    var items := Current(store);
    forall k | 0 <= k < |items| ensures LeafValid(items[k]) {
      assert ids[k] in ids;
      HealthyLeaf(env, ids[k], store.events[ids[k]], k + 1);
    }
  }

  /** Events still in the store are still in its listing, as a list and as a dictionary. */
  lemma ListingKeeps(env: Env, store: Store, prior: seq<Item>)
    requires env.Faithful() && Healthy(env, store) && StoreKeeps(prior, store)
    ensures Kept(prior, DigestMap(Current(store))) && KeepsAll(DigestMap(prior), DigestMap(Current(store)))
  {
    hide RowHealthy, WellFormedItems, DigestMap, Sorted;
    SortedElements(store.events.Keys);
    var ids := Sorted(store.events.Keys);
    var items := Current(store);
    ListingWellFormed(env, store);
    VerdictDistinct(items);
    var now := DigestMap(items);
    forall k | 0 <= k < |prior| ensures prior[k].id in now && now[prior[k].id] == prior[k].digest {
      assert prior[k].id in ids;
      var i :| 0 <= i < |ids| && ids[i] == prior[k].id;
      DigestMapMember(items, i);
    }
    forall id | id in DigestMap(prior) ensures id in now && now[id] == DigestMap(prior)[id] {
      DigestMapSource(prior, id);
    }
  }

  // ----- the producer satisfies the verifier -----

  lemma {:induction false} ReadsBack(items: seq<Item>)
    requires WellFormedItems(items)
    ensures ReadItems(ItemsJson(items)) == Success(items)
    decreases |items|
  {
    hide IsSha256, EqualsCount;
    if items == [] {
    } else {
      var init, last := items[..|items| - 1], items[|items| - 1];
      assert WellFormedItems(init);
      ReadsBack(init);
      assert ItemsJson(items)[..|items| - 1] == ItemsJson(init);
      ReadsBackItem(init, last);
      assert items == init + [last];
    }
  }

  lemma ReadsBackItem(before: seq<Item>, item: Item)
    requires LeafValid(item) && item.ordinal == |before| + 1
    requires forall k :: 0 <= k < |before| ==> Less(before[k].id, item.id)
    ensures ReadItem(before, ItemJson(item)) == Success(item)
  {
    hide IsSha256, Less;
    var fields := ItemJson(item).fields;
    assert fields.Keys == {OrdinalField, EventId, SemanticSha256};
    if item.id in Ids(before) {
      var k :| 0 <= k < |before| && before[k].id == item.id;
      LessIrreflexive(item.id);
    }
  }

  lemma NewBundlePosition(env: Env, mgr: Manager, sequence: nat, previous: Option<string>,
                          items: seq<Item>, now: string, signature: string)
    requires sequence >= 1 && items != []
    requires previous.Some? ==> IsSha256(previous.value)
    ensures var manifest := NewManifest(env, mgr, sequence, previous, items, now);
            PositionError(NewBundle(env, mgr, manifest, signature)) == None
  {
    hide Root, CheckpointIdText, Boundary, ItemsJson, IsSha256, PublicKeyRecord;
    CheckpointIdNonEmpty(sequence, Root(env.sha, items));
    var manifest := NewManifest(env, mgr, sequence, previous, items, now);
    var bundle := NewBundle(env, mgr, manifest, signature);
    assert ManifestOf(bundle) == manifest && EventsOf(bundle) == ItemsJson(items);
  }

  /** The configured manager, a digest-shaped predecessor and well-formed items pass every header check. */
  lemma NewBundleHeader(env: Env, mgr: Manager, sequence: nat, previous: Option<string>,
                        items: seq<Item>, now: string, signature: string)
    requires env.Faithful() && mgr.Configured() && sequence >= 1 && items != []
    requires previous.Some? ==> IsSha256(previous.value)
    ensures var manifest := NewManifest(env, mgr, sequence, previous, items, now);
            HeaderError(env, NewBundle(env, mgr, manifest, signature), mgr.Key(env)) == None
  {
    hide Root, CheckpointIdText, Boundary, ItemsJson, IsSha256, Manager.Configured, PositionError, SignatureInput;
    ConfiguredKey(mgr);
    NewBundlePosition(env, mgr, sequence, previous, items, now, signature);
    var manifest := NewManifest(env, mgr, sequence, previous, items, now);
    var bundle := NewBundle(env, mgr, manifest, signature);
    assert ManifestOf(bundle) == manifest;
    assert Get(FieldsOf(bundle), PublicKey) == PublicKeyRecord(env, mgr);
    assert IsSha256(mgr.Key(env));
  }

  lemma ConfiguredKey(mgr: Manager)
    requires mgr.Configured()
    ensures mgr.keyId != "" && |mgr.publicKey| == KEY_BYTES && mgr.publicKey != ""
  {
  }

  lemma CheckpointIdNonEmpty(sequence: nat, root: string)
    ensures CheckpointIdText(sequence, root) != ""
  {
    assert CheckpointIdText(sequence, root)[0] == 'E';
  }

  lemma NewBundleSeal(env: Env, mgr: Manager, sequence: nat, previous: Option<string>,
                      items: seq<Item>, now: string, signature: string)
    requires mgr.Configured() && items != [] && |signature| == SIGNATURE_BYTES
    requires var digest := env.sha(env.dump(NewManifest(env, mgr, sequence, previous, items, now)));
             env.check(mgr.publicKey, signature, SignatureInput(digest))
    ensures var manifest := NewManifest(env, mgr, sequence, previous, items, now);
            SealError(env, NewBundle(env, mgr, manifest, signature), items) == None
  {
    hide Root, CheckpointIdText, Boundary, ItemsJson, SignatureInput;
    var manifest := NewManifest(env, mgr, sequence, previous, items, now);
    var bundle := NewBundle(env, mgr, manifest, signature);
    assert ManifestOf(bundle) == manifest;
  }

  /** The verifier accepts what checkpoint creation writes, and reads back what it was made from. */
  lemma NewBundleAccepted(env: Env, mgr: Manager, sequence: nat, previous: Option<string>,
                          items: seq<Item>, now: string, signature: string)
    requires env.Faithful() && mgr.Configured() && sequence >= 1 && items != [] && WellFormedItems(items)
    requires previous.Some? ==> IsSha256(previous.value)
    requires |signature| == SIGNATURE_BYTES
    requires var digest := env.sha(env.dump(NewManifest(env, mgr, sequence, previous, items, now)));
             env.check(mgr.publicKey, signature, SignatureInput(digest))
    ensures var manifest := NewManifest(env, mgr, sequence, previous, items, now);
            BundleVerdict(env, NewBundle(env, mgr, manifest, signature), mgr.Key(env)) ==
            Success(Verified(sequence, CheckpointIdText(sequence, Root(env.sha, items)), env.sha(env.dump(manifest)),
                             previous, items, mgr.keyId, false))
  {
    hide HeaderError, SealError, ReadItems, WellFormedItems, Summary, NewBundle, NewManifest, SignatureInput, IsSha256;
    hide CheckpointIdText, Root;
    NewBundleHeader(env, mgr, sequence, previous, items, now, signature);
    NewBundleSeal(env, mgr, sequence, previous, items, now, signature);
    ReadsBack(items);
    var bundle := NewBundle(env, mgr, NewManifest(env, mgr, sequence, previous, items, now), signature);
    NewBundleSummary(env, mgr, sequence, previous, items, now, signature);
    VerdictFrom(env, bundle, mgr.Key(env), items);
  }

  lemma VerdictFrom(env: Env, bundle: Json, fingerprint: string, items: seq<Item>)
    requires HeaderError(env, bundle, fingerprint) == None && items != []
    requires ReadItems(EventsOf(bundle)) == Success(items) && SealError(env, bundle, items) == None
    requires PositionError(bundle) == None && IsText(KeyField(bundle, KeyId))
    ensures BundleVerdict(env, bundle, fingerprint) == Success(Summary(env, bundle, items))
  {
    hide HeaderError, SealError, ReadItems, Summary, PositionError;
  }

  lemma NewBundleSummary(env: Env, mgr: Manager, sequence: nat, previous: Option<string>,
                         items: seq<Item>, now: string, signature: string)
    requires mgr.Configured() && items != []
    requires var manifest := NewManifest(env, mgr, sequence, previous, items, now);
             HeaderError(env, NewBundle(env, mgr, manifest, signature), mgr.Key(env)) == None
    ensures var manifest := NewManifest(env, mgr, sequence, previous, items, now);
            var bundle := NewBundle(env, mgr, manifest, signature);
            && EventsOf(bundle) == ItemsJson(items)
            && PositionError(bundle) == None && IsText(KeyField(bundle, KeyId))
            && Summary(env, bundle, items) ==
               Verified(sequence, CheckpointIdText(sequence, Root(env.sha, items)), env.sha(env.dump(manifest)),
                        previous, items, mgr.keyId, false)
  {
    hide Root, CheckpointIdText, Boundary, SignatureInput, ItemsJson, IsSha256, HeaderError, PositionError;
    ConfiguredKey(mgr);
    var manifest := NewManifest(env, mgr, sequence, previous, items, now);
    var bundle := NewBundle(env, mgr, manifest, signature);
    assert ManifestOf(bundle) == manifest;
    HeaderNonEmpty(env, bundle, mgr.Key(env));
  }

  /** The verdict on the bundle stored at position k. */
  ghost predicate VerdictAt(env: Env, mgr: Manager, db: Db, k: nat)
    requires k < |db.rows|
  {
    var row := db.rows[k];
    BundleVerdict(env, StoredBundleOf(env, row), mgr.Key(env)) ==
    Success(Verified(k + 1, row.checkpointId, row.digest, LastDigest(db.rows[..k]), MembersOf(db, k + 1), mgr.keyId,
                     false))
  }

  lemma RowAccepted(env: Env, mgr: Manager, db: Db, k: nat)
    requires env.Faithful() && mgr.Configured() && k < |db.rows| && RowOk(env, mgr, db, k)
    requires k > 0 ==> IsSha256(db.rows[k - 1].digest)
    ensures VerdictAt(env, mgr, db, k)
    ensures RowError(env, mgr, db.rows[k], k + 1, MembersOf(db, k + 1)) == None
  {
    hide Root, CheckpointIdText, Boundary, SignatureInput, BundleVerdict, IsSha256, WellFormedItems, ItemsJson;
    hide DigestMap, KeepsAll, Manager.Configured, PublicKeyRecord, SameValue;
    var row, items := db.rows[k], MembersOf(db, k + 1);
    var previous := LastDigest(db.rows[..k]);
    var manifest := NewManifest(env, mgr, k + 1, previous, items, row.createdAt);
    var bundle := NewBundle(env, mgr, manifest, row.signature);
    NewBundleAccepted(env, mgr, k + 1, previous, items, row.createdAt, row.signature);
    assert env.load(row.bundleJson) == Some(bundle) && env.load(row.manifestJson) == Some(manifest);
    assert StoredBundleOf(env, row) == bundle && ManifestOf(bundle) == manifest;
    SameValueReflexive(manifest);
    RowMatchesManifest(env, mgr, k + 1, previous, items, row.createdAt, row.signature);
  }

  lemma RowMatchesManifest(env: Env, mgr: Manager, sequence: nat, previous: Option<string>,
                           items: seq<Item>, now: string, signature: string)
    requires items != []
    ensures var row := NewRow(env, mgr, sequence, previous, items, now, signature);
            var manifest := NewManifest(env, mgr, sequence, previous, items, now);
            RowMatches(row, NewBundle(env, mgr, manifest, signature), row.digest)
  {
    hide Root, CheckpointIdText, Boundary, ItemsJson, PublicKeyRecord;
    var manifest := NewManifest(env, mgr, sequence, previous, items, now);
    assert ManifestOf(NewBundle(env, mgr, manifest, signature)) == manifest;
  }

  /** Digests of stored rows are outputs of the hash. */
  lemma RowDigest(env: Env, mgr: Manager, db: Db, k: nat)
    requires env.Faithful() && k < |db.rows| && RowOk(env, mgr, db, k)
    ensures IsSha256(db.rows[k].digest)
  {
    hide Root, CheckpointIdText, NewManifest, NewBundle, IsSha256, WellFormedItems, DigestMap, KeepsAll, SignatureInput;
    var row, items := db.rows[k], MembersOf(db, k + 1);
    assert row.digest ==
           env.sha(env.dump(NewManifest(env, mgr, k + 1, LastDigest(db.rows[..k]), items, row.createdAt)));
  }

  lemma {:induction false} RowsAccepted(env: Env, mgr: Manager, db: Db, n: nat)
    requires env.Faithful() && mgr.Configured() && Invariant(env, mgr, db) && n <= |db.rows|
    ensures FirstRowError(env, mgr, db, n) == None
    ensures forall k :: 0 <= k < n ==> VerdictAt(env, mgr, db, k)
    decreases n
  {
    hide RowOk, RowError, VerdictAt, Healthy, IsSha256;
    if n == 0 {
    } else {
      RowsAccepted(env, mgr, db, n - 1);
      if n > 1 {
        RowDigest(env, mgr, db, n - 2);
      }
      RowAccepted(env, mgr, db, n - 1);
    }
  }

  /** The stored bundles link: sequence numbers, predecessor digests and provenance all carry over. */
  lemma {:induction false} BundlesLink(env: Env, mgr: Manager, db: Db, n: nat)
    requires n <= |db.rows| && forall k :: 0 <= k < |db.rows| ==> VerdictAt(env, mgr, db, k) && RowOk(env, mgr, db, k)
    ensures var links := Links(env, Bundles(env, db.rows[..n]), mgr.Key(env));
            && links.Success? && |links.value| == n
            && (n > 0 ==> links.value[n - 1].sequence == n && links.value[n - 1].digest == db.rows[n - 1].digest
                          && links.value[n - 1].items == MembersOf(db, n))
    decreases n
  {
    hide BundleVerdict, NewRow, WellFormedItems, DigestMap, KeepsAll, SignatureInput, StoredBundleOf;
    if n > 0 {
      BundlesLink(env, mgr, db, n - 1);
      var bundles := Bundles(env, db.rows[..n]);
      assert bundles[..n - 1] == Bundles(env, db.rows[..n - 1]);
      assert VerdictAt(env, mgr, db, n - 1) && RowOk(env, mgr, db, n - 1);
      var before := Links(env, bundles[..n - 1], mgr.Key(env)).value;
      var current := BundleVerdict(env, bundles[n - 1], mgr.Key(env)).value;
      assert LinkError(before, current) == None;
    } else {
      assert db.rows[..0] == [];
    }
  }

  /** In every state that meets the invariant the integrity check, and with it the chain verifier, succeeds. */
  lemma InvariantPassesIntegrity(env: Env, mgr: Manager, db: Db)
    requires env.Faithful() && mgr.Configured() && Invariant(env, mgr, db)
    ensures Integrity(env, mgr, db).Success? && |Integrity(env, mgr, db).value| == |db.rows|
    ensures db.rows != [] ==> ChainVerdict(env, Bundles(env, db.rows), mgr.Key(env)).Success?
  {
    hide RowOk, VerdictAt, Healthy, FirstRowError;
    RowsAccepted(env, mgr, db, |db.rows|);
    BundlesLink(env, mgr, db, |db.rows|);
    assert db.rows[..|db.rows|] == db.rows;
  }

  // ----- every step keeps the invariant -----

  lemma IngestKeepsInvariant(env: Env, mgr: Manager, db: Db, record: AuditRecord, now: string)
    requires env.Faithful() && Invariant(env, mgr, db)
    ensures Invariant(env, mgr, db.(store := IngestStep(env, db.store, record, now).0))
  {
    hide Healthy, IngestStep, NewRow, WellFormedItems, DigestMap, KeepsAll, SignatureInput, IsSha256;
    IngestKeepsHealthy(env, db.store, record, now);
    var next := db.(store := IngestStep(env, db.store, record, now).0);
    forall k | 0 <= k < |next.rows| ensures RowOk(env, mgr, next, k) {
      assert RowOk(env, mgr, db, k);
    }
  }

  /** Revalidation of the stored events succeeds and never finds earlier provenance missing. */
  lemma NothingLost(env: Env, mgr: Manager, db: Db, now: string)
    requires env.Faithful() && Invariant(env, mgr, db)
    ensures CheckpointStep(env, mgr, db, now) ==
            if db.store.events == map[] then (db, Failure(EmptyStore))
            else SealStep(env, mgr, db, Current(db.store), now)
  {
    hide RowOk, SealStep, DigestMap, Healthy, Kept, CurrentItems, Current, StoreKeeps, Sorted, Env.Faithful;
    Revalidated(env, db.store);
    ListingKeeps(env, db.store, MembersOf(db, |db.rows|));
    CurrentEmpty(db.store);
  }

  lemma Revalidated(env: Env, store: Store)
    requires Healthy(env, store)
    ensures forall id :: id in Sorted(store.events.Keys) ==> id in store.events
    ensures CurrentItems(env, store.events, Sorted(store.events.Keys)) == Success(Current(store))
  {
    hide RowHealthy, CurrentItems, Listing, Sorted;
    SortedElements(store.events.Keys);
    HealthyItems(env, store, Sorted(store.events.Keys));
  }

  lemma CurrentEmpty(store: Store)
    ensures Current(store) == [] <==> store.events == map[]
  {
    assert |Current(store)| == |store.events.Keys|;
    assert store.events == map[] <==> store.events.Keys == {};
  }

  lemma SealExtends(env: Env, mgr: Manager, db: Db, items: seq<Item>, now: string)
    requires items != []
    ensures var (next, r) := SealStep(env, mgr, db, items, now);
            if r.Failure? then next == db
            else && |next.rows| == |db.rows| + 1 && next.rows[..|db.rows|] == db.rows
                 && next == Db(db.store, next.rows, db.members[NextSequence(db.rows) := items], db.bindings)
                 && next.rows[|db.rows|].sequence == NextSequence(db.rows)
  {
    hide NewManifest, NewBundle, Root, SignatureInput, Unique, CheckpointIdText;
  }

  lemma SealKeepsInvariant(env: Env, mgr: Manager, db: Db, now: string)
    requires env.Faithful() && Invariant(env, mgr, db) && Current(db.store) != []
    ensures Invariant(env, mgr, SealStep(env, mgr, db, Current(db.store), now).0)
  {
    hide Healthy, SealStep, RowOk, Current, StoreKeeps, Env.Faithful;
    var (next, r) := SealStep(env, mgr, db, Current(db.store), now);
    SealExtends(env, mgr, db, Current(db.store), now);
    if r.Success? {
      SealKeepsRows(env, mgr, db, now);
      CurrentKept(db.store);
    }
  }

  lemma SealKeepsRows(env: Env, mgr: Manager, db: Db, now: string)
    requires env.Faithful() && Invariant(env, mgr, db) && Current(db.store) != []
    requires SealStep(env, mgr, db, Current(db.store), now).1.Success?
    ensures var next := SealStep(env, mgr, db, Current(db.store), now).0;
            forall k :: 0 <= k < |next.rows| ==> RowOk(env, mgr, next, k)
  {
    hide Healthy, SealStep, RowOk, Current, StoreKeeps, Env.Faithful;
    var items, n := Current(db.store), |db.rows|;
    var next := SealStep(env, mgr, db, items, now).0;
    SealExtends(env, mgr, db, items, now);
    NewRowOk(env, mgr, db, now);
    forall k | 0 <= k < n ensures RowOk(env, mgr, next, k) {
      OldRowOk(env, mgr, db, next, k);
    }
  }

  lemma OldRowOk(env: Env, mgr: Manager, db: Db, next: Db, k: nat)
    requires k < |db.rows| < |next.rows| && RowOk(env, mgr, db, k) && next.rows[..|db.rows|] == db.rows
    requires forall s :: s in db.members ==> s in next.members
    requires MembersOf(next, k) == MembersOf(db, k) && MembersOf(next, k + 1) == MembersOf(db, k + 1)
    ensures RowOk(env, mgr, next, k)
  {
    hide NewRow, WellFormedItems, DigestMap, KeepsAll, SignatureInput, MembersOf;
    assert next.rows[k] == next.rows[..|db.rows|][k];
    assert next.rows[..k] == next.rows[..|db.rows|][..k];
  }

  lemma NewRowOk(env: Env, mgr: Manager, db: Db, now: string)
    requires env.Faithful() && Invariant(env, mgr, db) && Current(db.store) != []
    requires SealStep(env, mgr, db, Current(db.store), now).1.Success?
    ensures var next := SealStep(env, mgr, db, Current(db.store), now).0;
            |next.rows| == |db.rows| + 1 && RowOk(env, mgr, next, |db.rows|)
  {
    hide Healthy, NewBundle, WellFormedItems, DigestMap, KeepsAll, SignatureInput, IsSha256, NewManifest;
    hide Root, CheckpointIdText, Unique, Current, StoreKeeps;
    var n, items := |db.rows|, Current(db.store);
    ListingWellFormed(env, db.store);
    ListingKeeps(env, db.store, MembersOf(db, n));
    var next := SealStep(env, mgr, db, items, now).0;
    assert next.rows[..n] == db.rows;
    assert MembersOf(next, n) == MembersOf(db, n) && MembersOf(next, n + 1) == items;
    assert LastDigest(next.rows[..n]) == LastDigest(db.rows) && NextSequence(db.rows) == n + 1;
  }

  lemma CurrentKept(store: Store)
    ensures StoreKeeps(Current(store), store)
  {
    var ids := Sorted(store.events.Keys);
    SortedElements(store.events.Keys);
    forall k | 0 <= k < |ids| ensures ids[k] in store.events {
      assert ids[k] in ids;
    }
  }

  lemma CheckpointKeepsInvariant(env: Env, mgr: Manager, db: Db, now: string)
    requires env.Faithful() && Invariant(env, mgr, db)
    ensures Invariant(env, mgr, CheckpointStep(env, mgr, db, now).0)
  {
    hide CheckpointStep, SealStep, RowOk, Healthy, StoreKeeps, Listing, Sorted;
    NothingLost(env, mgr, db, now);
    if db.store.events != map[] {
      CurrentEmpty(db.store);
      SealKeepsInvariant(env, mgr, db, now);
    }
  }

  // ----- the protocol over whole runs -----

  lemma StepKeepsInvariant(env: Env, mgr: Manager, db: Db, op: Op)
    requires env.Faithful() && Invariant(env, mgr, db)
    ensures Invariant(env, mgr, Step(env, mgr, db, op))
  {
    hide CheckpointStep, IngestStep, RowOk, Healthy, StoreKeeps;
    match op {
      case Ingest(record, now) => IngestKeepsInvariant(env, mgr, db, record, now);
      case Checkpoint(now) => CheckpointKeepsInvariant(env, mgr, db, now);
    }
  }

  lemma {:induction false} RunKeepsInvariant(env: Env, mgr: Manager, ops: seq<Op>)
    requires env.Faithful()
    ensures Invariant(env, mgr, Run(env, mgr, ops))
    decreases |ops|
  {
    hide Step, Fresh, Invariant;
    if ops == [] {
      FreshInvariant(env, mgr);
    } else {
      RunKeepsInvariant(env, mgr, ops[..|ops| - 1]);
      StepKeepsInvariant(env, mgr, Run(env, mgr, ops[..|ops| - 1]), ops[|ops| - 1]);
    }
  }

  lemma FreshInvariant(env: Env, mgr: Manager)
    ensures Invariant(env, mgr, Fresh(env, mgr))
  {
    hide RowOk, RowHealthy;
  }

  /** After any run of ingests and checkpoints under one key, with any signer, the integrity check succeeds, the
      verifier accepts the stored bundles, and a further checkpoint is never blocked by lost or altered provenance. */
  lemma EveryRunVerifies(env: Env, mgr: Manager, ops: seq<Op>, now: string)
    requires env.Faithful() && mgr.Configured()
    ensures var db := Run(env, mgr, ops);
            && Integrity(env, mgr, db).Success?
            && (db.rows != [] ==> ChainVerdict(env, Bundles(env, db.rows), mgr.Key(env)).Success?)
            && (CheckpointStep(env, mgr, db, now).1.Failure? ==>
                  CheckpointStep(env, mgr, db, now).1.error in
                  {EmptyStore, SignerRejected, SignatureShape, Unverifiable, UniqueViolation})
  {
    hide CheckpointStep, Integrity, ChainVerdict, Invariant, Manager.Configured, Current, SealStep, Env.Faithful,
         Healthy;
    var db := Run(env, mgr, ops);
    RunKeepsInvariant(env, mgr, ops);
    InvariantPassesIntegrity(env, mgr, db);
    InvariantHealthy(env, mgr, db);
    NothingLost(env, mgr, db, now);
    if db.store.events != map[] {
      CurrentEmpty(db.store);
      SealErrors(env, mgr, db, Current(db.store), now);
    }
  }

  lemma InvariantHealthy(env: Env, mgr: Manager, db: Db)
    requires Invariant(env, mgr, db)
    ensures Healthy(env, db.store)
  {
  }

  lemma SealErrors(env: Env, mgr: Manager, db: Db, items: seq<Item>, now: string)
    requires items != []
    ensures var r := SealStep(env, mgr, db, items, now).1;
            r.Failure? ==> r.error in {SignerRejected, SignatureShape, Unverifiable, UniqueViolation}
  {
    hide NewManifest, NewBundle, NewRow, Root, SignatureInput, Unique;
  }

  // ----- checkpoints of an honest signer -----

  /** Every request is signed, with a signature of the right length that verifies. */
  ghost predicate Honest(env: Env, mgr: Manager) {
    forall input :: SignsWell(env, mgr, input)
  }

  predicate SignsWell(env: Env, mgr: Manager, input: string) {
    var s := mgr.sign(input);
    s.Some? && |s.value| == SIGNATURE_BYTES && env.check(mgr.publicKey, s.value, input)
  }

  function NextManifest(env: Env, mgr: Manager, db: Db, items: seq<Item>, now: string): Json
    requires items != []
  {
    NewManifest(env, mgr, NextSequence(db.rows), LastDigest(db.rows), items, now)
  }

  function StoredTexts(rows: seq<Row>): set<string> {
    set k | 0 <= k < |rows| :: rows[k].manifestJson
  }

  /** With an honest signer and no collision among the manifests, a checkpoint of a non-empty store always succeeds. */
  lemma HonestCheckpointSucceeds(env: Env, mgr: Manager, ops: seq<Op>, now: string)
    requires env.Faithful() && Honest(env, mgr) && Current(Run(env, mgr, ops).store) != []
    requires var db := Run(env, mgr, ops);
             CollisionFree(env.sha, StoredTexts(db.rows) +
                                    {env.dump(NextManifest(env, mgr, db, Current(db.store), now))})
    ensures CheckpointStep(env, mgr, Run(env, mgr, ops), now).1.Success?
  {
    hide CheckpointStep, Invariant, Current, NextManifest, StoredTexts, Env.Faithful, Honest;
    var db := Run(env, mgr, ops);
    RunKeepsInvariant(env, mgr, ops);
    NothingLost(env, mgr, db, now);
    CurrentEmpty(db.store);
    SealSucceeds(env, mgr, db, Current(db.store), now);
  }

  lemma SealSucceeds(env: Env, mgr: Manager, db: Db, items: seq<Item>, now: string)
    requires env.Faithful() && Invariant(env, mgr, db) && Honest(env, mgr) && items != []
    requires CollisionFree(env.sha, StoredTexts(db.rows) + {env.dump(NextManifest(env, mgr, db, items, now))})
    ensures SealStep(env, mgr, db, items, now).1.Success?
  {
    hide NewManifest, NewBundle, Root, SignatureInput, Unique, CheckpointIdText, Env.Faithful, RowOk, Healthy;
    var input := SignatureInput(env.sha(env.dump(NextManifest(env, mgr, db, items, now))));
    assert SignsWell(env, mgr, input);
    var row := NewRow(env, mgr, NextSequence(db.rows), LastDigest(db.rows), items, now, mgr.sign(input).value);
    NewRowUnique(env, mgr, db, items, now, mgr.sign(input).value);
    assert NextSequence(db.rows) !in db.members;
  }

  lemma NewRowUnique(env: Env, mgr: Manager, db: Db, items: seq<Item>, now: string, signature: string)
    requires env.Faithful() && Invariant(env, mgr, db) && items != []
    requires CollisionFree(env.sha, StoredTexts(db.rows) + {env.dump(NextManifest(env, mgr, db, items, now))})
    ensures Unique(db.rows, NewRow(env, mgr, NextSequence(db.rows), LastDigest(db.rows), items, now, signature))
  {
    hide NewRow, Healthy, Env.Faithful, RowOk, CollisionFree, StoredTexts, NextManifest;
    var row := NewRow(env, mgr, NextSequence(db.rows), LastDigest(db.rows), items, now, signature);
    forall k | 0 <= k < |db.rows|
      ensures db.rows[k].sequence != row.sequence && db.rows[k].checkpointId != row.checkpointId
              && db.rows[k].digest != row.digest
    {
      RowsDiffer(env, mgr, db, k, items, now, signature);
    }
  }

  lemma RowsDiffer(env: Env, mgr: Manager, db: Db, k: nat, items: seq<Item>, now: string,
                   signature: string)
    requires env.Faithful() && Sequenced(db.rows) && k < |db.rows| && RowOk(env, mgr, db, k) && items != []
    requires CollisionFree(env.sha, StoredTexts(db.rows) + {env.dump(NextManifest(env, mgr, db, items, now))})
    ensures var row := NewRow(env, mgr, NextSequence(db.rows), LastDigest(db.rows), items, now, signature);
            db.rows[k].sequence != row.sequence && db.rows[k].checkpointId != row.checkpointId
            && db.rows[k].digest != row.digest
  {
    hide Root, NewManifest, NewBundle, CheckpointIdText, WellFormedItems, DigestMap, KeepsAll, SignatureInput, IsSha256;
    var was, oldItems, n := db.rows[k], MembersOf(db, k + 1), NextSequence(db.rows);
    var before := NewManifest(env, mgr, k + 1, LastDigest(db.rows[..k]), oldItems, was.createdAt);
    var after := NextManifest(env, mgr, db, items, now);
    CheckpointIdsDiffer(env, k + 1, n, oldItems, items);
    assert env.dump(before) in StoredTexts(db.rows);
    if env.sha(env.dump(before)) == env.sha(env.dump(after)) {
      DumpInjective(env, before, after);
      ManifestSequence(env, mgr, k + 1, LastDigest(db.rows[..k]), oldItems, was.createdAt);
      ManifestSequence(env, mgr, n, LastDigest(db.rows), items, now);
    }
  }

  lemma ManifestSequence(env: Env, mgr: Manager, sequence: nat, previous: Option<string>,
                         items: seq<Item>, now: string)
    requires items != []
    ensures FieldsOf(NewManifest(env, mgr, sequence, previous, items, now))[Sequence] == JInt(sequence)
  {
    hide Root, CheckpointIdText, Boundary, ItemsJson;
  }

  /** The eight-digit number and the sixteen digits of the root keep identifiers of different checkpoints apart. */
  lemma CheckpointIdsDiffer(env: Env, a: nat, b: nat, xs: seq<Item>, ys: seq<Item>)
    requires env.Faithful() && a != b && xs != [] && ys != []
    ensures CheckpointIdText(a, Root(env.sha, xs)) != CheckpointIdText(b, Root(env.sha, ys))
  {
    hide RootTree;
    var r, r' := Root(env.sha, xs), Root(env.sha, ys);
    RootIsDigest(env, xs);
    RootIsDigest(env, ys);
    var p, p' := Padded(Decimal(a), 8), Padded(Decimal(b), 8);
    var x, y := CheckpointIdText(a, r), CheckpointIdText(b, r');
    if x == y {
      hide Padded, Decimal;
      assert |x| == 9 + |p| + 17 && |y| == 9 + |p'| + 17;
      assert x[9..9 + |p|] == p && y[9..9 + |p|] == p';
      PaddedValue(Decimal(a), 8);
      PaddedValue(Decimal(b), 8);
      DecimalValue(a);
      DecimalValue(b);
    }
  }

  lemma RootIsDigest(env: Env, items: seq<Item>)
    requires env.Faithful() && items != []
    ensures |Root(env.sha, items)| == 64
  {
    hide RootTree;
    assert IsSha256(env.sha(RootTree(items).Text(env.sha)));
  }
}
