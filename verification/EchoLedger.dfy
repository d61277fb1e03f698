/** Checkpoint creation over the event store: one database holding events, checkpoints and their membership rows. */
module EchoLedger {
  import opened EchoStore
  import opened EchoVerify
  import opened JsonDocuments
  import opened Merkle
  import opened Text
  import opened Wrappers

  /** A signing key; `sign` is the injected signer, which may refuse or misbehave. */
  datatype Manager = Manager(keyId: string, publicKey: string, sign: string -> Option<string>) {

    function Key(env: Env): string {
      env.sha(publicKey)
    }

    /** What constructing the manager checks. */
    predicate Configured() {
      0 < |keyId| <= 128 && (forall c :: c in keyId ==> IsIdChar(c)) && |publicKey| == KEY_BYTES
    }
  }

  datatype Row = Row(sequence: nat, checkpointId: string, createdAt: string, previous: Option<string>,
                     digest: string, root: string, eventCount: nat, keyId: string, fingerprint: string,
                     manifestJson: string, signature: string, bundleJson: string)

  /** `rows` is in order of sequence; `members` groups the membership rows of a checkpoint in order of ordinal. */
  datatype Db = Db(store: Store, rows: seq<Row>, members: map<int, seq<Item>>, bindings: map<string, string>)

  datatype CheckpointError =
    | KeyRebound | SemanticValidation | StableIdMismatch | StoredDigestMismatch | EmptyStore | ProvenanceBlocked
    | SignerRejected | SignatureShape | Unverifiable | UniqueViolation
    | BindingMismatch | StoredSequenceGap | MalformedJson | StoredBundle(reason: VerifyError) | ManifestCopy
    | MissingField | RowMismatch | MembershipMismatch | StoredChain(reason: VerifyError)
    | BadKeyId | BadPublicKey

  // ----- the documents -----

  function ItemJson(item: Item): Json {
    JObj(map[OrdinalField := JInt(item.ordinal), EventId := JStr(item.id), SemanticSha256 := JStr(item.digest)])
  }

  function ItemsJson(items: seq<Item>): (r: seq<Json>)
    ensures |r| == |items|
  {
    seq(|items|, (i: nat) requires i < |items| => ItemJson(items[i]))
  }

  function OptionalText(s: Option<string>): Json {
    if s.Some? then JStr(s.value) else JNull
  }

  function ShortRoot(root: string): string {
    if |root| <= 16 then root else root[..16]
  }

  function CheckpointIdText(sequence: nat, root: string): string {
    "ECHO-CHK-" + Padded(Decimal(sequence), 8) + "-" + ShortRoot(root)
  }

  /** The fixed disclaimer of every manifest; nothing depends on its wording. */
  function Boundary(): string {
    "local evidence only"
  }

  function NewManifest(env: Env, mgr: Manager, sequence: nat, previous: Option<string>, items: seq<Item>,
                       now: string): Json
    requires items != []
  {
    var root := Root(env.sha, items);
    JObj(map[Schema := JStr(CHECKPOINT_SCHEMA), Issuer := JStr(ISSUER),
             CheckpointId := JStr(CheckpointIdText(sequence, root)), Sequence := JInt(sequence),
             CreatedAt := JStr(now), PreviousCheckpoint := OptionalText(previous), EventCount := JInt(|items|),
             Events := JArr(ItemsJson(items)), MerkleRootSha256 := JStr(root), Algorithm := JStr(ED25519),
             KeyId := JStr(mgr.keyId), KeyFingerprint := JStr(mgr.Key(env)), ClaimsBoundary := JStr(Boundary())])
  }

  function PublicKeyRecord(env: Env, mgr: Manager): Json {
    JObj(map[Schema := JStr(PUBLIC_KEY_SCHEMA), Issuer := JStr(ISSUER), Purpose := JStr(PURPOSE),
             Algorithm := JStr(ED25519), KeyId := JStr(mgr.keyId), PublicKeyText := JStr(mgr.publicKey),
             Fingerprint := JStr(mgr.Key(env))])
  }

  function NewBundle(env: Env, mgr: Manager, manifest: Json, signature: string): Json {
    JObj(map[Schema := JStr(BUNDLE_SCHEMA), Manifest := manifest,
             CheckpointSha256 := JStr(env.sha(env.dump(manifest))),
             SignatureInputSchema := JStr(SIGNATURE_INPUT_SCHEMA), Signature := JStr(signature),
             PublicKey := PublicKeyRecord(env, mgr)])
  }

  function NewRow(env: Env, mgr: Manager, sequence: nat, previous: Option<string>, items: seq<Item>, now: string,
                  signature: string): Row
    requires items != []
  {
    var root := Root(env.sha, items);
    var manifest := NewManifest(env, mgr, sequence, previous, items, now);
    Row(sequence, CheckpointIdText(sequence, root), now, previous, env.sha(env.dump(manifest)), root, |items|,
        mgr.keyId, mgr.Key(env), env.dump(manifest), signature, env.dump(NewBundle(env, mgr, manifest, signature)))
  }

  // ----- creating a checkpoint -----

  function CurrentItem(env: Env, ordinal: nat, id: string, row: StoredEvent): Result<Item, CheckpointError> {
    var audit := Reloaded(env, row);
    if audit.None? then Failure(SemanticValidation) else
      var digest := SemanticDigest(env, audit.value);
      if digest.Failure? then Failure(SemanticValidation)
      else if Get(audit.value.payload, OutboxEventId) != JStr(id) then Failure(StableIdMismatch)
      else if digest.value != row.digest then Failure(StoredDigestMismatch)
      else Success(Item(ordinal, id, digest.value))
  }

  /** Revalidates every stored event, in the given order of identifiers. */
  function CurrentItems(env: Env, events: map<string, StoredEvent>, ids: seq<string>):
      Result<seq<Item>, CheckpointError>
    requires forall id :: id in ids ==> id in events
  {
    if ids == [] then Success([]) else
      var before := CurrentItems(env, events, ids[..|ids| - 1]);
      var id := ids[|ids| - 1];
      if before.Failure? then before else
        var item := CurrentItem(env, |ids|, id, events[id]);
        if item.Failure? then Failure(item.error) else Success(before.value + [item.value])
  }

  ghost predicate Kept(prior: seq<Item>, current: map<string, string>) {
    forall k :: 0 <= k < |prior| ==> prior[k].id in current && current[prior[k].id] == prior[k].digest
  }

  function MembersOf(db: Db, sequence: int): seq<Item> {
    if sequence in db.members then db.members[sequence] else []
  }

  ghost predicate Unique(rows: seq<Row>, row: Row) {
    forall k :: 0 <= k < |rows| ==>
      rows[k].sequence != row.sequence && rows[k].checkpointId != row.checkpointId && rows[k].digest != row.digest
  }

  function NextSequence(rows: seq<Row>): nat {
    if rows == [] then 1 else rows[|rows| - 1].sequence + 1
  }

  function LastDigest(rows: seq<Row>): Option<string> {
    if rows == [] then None else Some(rows[|rows| - 1].digest)
  }

  /** Signing, verifying the signature and inserting the rows. */
  ghost function SealStep(env: Env, mgr: Manager, db: Db, items: seq<Item>, now: string):
      (Db, Result<Json, CheckpointError>)
    requires items != []
  {
    var sequence, previous := NextSequence(db.rows), LastDigest(db.rows);
    var manifest := NewManifest(env, mgr, sequence, previous, items, now);
    var input := SignatureInput(env.sha(env.dump(manifest)));
    var signature := mgr.sign(input);
    if signature.None? then (db, Failure(SignerRejected))
    else if |signature.value| != SIGNATURE_BYTES then (db, Failure(SignatureShape))
    else if !env.check(mgr.publicKey, signature.value, input) then (db, Failure(Unverifiable))
    else
      var row := NewRow(env, mgr, sequence, previous, items, now, signature.value);
      if !Unique(db.rows, row) || sequence in db.members then (db, Failure(UniqueViolation))
      else (db.(rows := db.rows + [row], members := db.members[sequence := items]),
            Success(NewBundle(env, mgr, manifest, signature.value)))
  }

  /** The revalidated events of the store, in order of identifier. */
  ghost function StoredItems(env: Env, events: map<string, StoredEvent>): Result<seq<Item>, CheckpointError> {
    SortedElements(events.Keys);
    CurrentItems(env, events, Sorted(events.Keys))
  }

  ghost function CheckpointStep(env: Env, mgr: Manager, db: Db, now: string): (Db, Result<Json, CheckpointError>)
  {
    var items := StoredItems(env, db.store.events);
    if items.Failure? then (db, Failure(items.error))
    else if items.value == [] then (db, Failure(EmptyStore))
    else if db.rows != [] && !Kept(MembersOf(db, db.rows[|db.rows| - 1].sequence), DigestMap(items.value))
    then (db, Failure(ProvenanceBlocked))
    else SealStep(env, mgr, db, items.value, now)
  }

  // ----- runs -----

  datatype Op = Ingest(record: AuditRecord, now: string) | Checkpoint(now: string)

  ghost function Step(env: Env, mgr: Manager, db: Db, op: Op): Db
  {
    match op
    case Ingest(record, now) => db.(store := IngestStep(env, db.store, record, now).0)
    case Checkpoint(now) => CheckpointStep(env, mgr, db, now).0
  }

  /** A new database that the manager's key has just been bound to. */
  function Fresh(env: Env, mgr: Manager): Db {
    Db(EMPTY, [], map[], map[mgr.keyId := mgr.Key(env)])
  }

  ghost predicate Sequenced(rows: seq<Row>) {
    forall k :: 0 <= k < |rows| ==> rows[k].sequence == k + 1
  }

  lemma StepSequenced(env: Env, mgr: Manager, db: Db, op: Op)
    requires Sequenced(db.rows)
    ensures Sequenced(Step(env, mgr, db, op).rows)
  {
    hide NewManifest, NewBundle, Root, SignatureInput, IngestStep, CurrentItems, DigestMap;
  }

  ghost function Run(env: Env, mgr: Manager, ops: seq<Op>): (db: Db)
    ensures Sequenced(db.rows)
  {
    if ops == [] then Fresh(env, mgr) else
      var before := Run(env, mgr, ops[..|ops| - 1]);
      StepSequenced(env, mgr, before, ops[|ops| - 1]);
      Step(env, mgr, before, ops[|ops| - 1])
  }

  // ----- the manager -----

  class EchoCheckpointManager {
    const env: Env
    const mgr: Manager
    const store: EchoEventStore
    var rows: seq<Row>
    var members: map<int, seq<Item>>
    var bindings: map<string, string>

    ghost function Contents(): Db
      reads this, store
    {
      Db(store.Contents(), rows, members, bindings)
    }

    ghost predicate Valid()
      reads this
    {
      store.env == env
    }

    constructor (store: EchoEventStore, mgr: Manager)
      ensures this.store == store && this.mgr == mgr && this.env == store.env && Valid()
      ensures Contents() == Db(store.Contents(), [], map[], map[])
    {
      this.env, this.store, this.mgr := store.env, store, mgr;
      rows, members, bindings := [], map[], map[];
    }

    /** Binds the key identifier to the key on first use; afterwards only the same key may use it. */
    method Bind() returns (error: Option<CheckpointError>)
      modifies this`bindings
      ensures var was, fp := old(bindings), mgr.Key(env);
              if mgr.keyId in was then bindings == was && (error == None <==> was[mgr.keyId] == fp)
              else bindings == was[mgr.keyId := fp] && error == None
    {
      if mgr.keyId in bindings {
        return if bindings[mgr.keyId] == mgr.Key(env) then None else Some(KeyRebound);
      }
      bindings := bindings[mgr.keyId := mgr.Key(env)];
      return None;
    }

    method CreateCheckpoint(now: string) returns (r: Result<Json, CheckpointError>)
      requires Valid()
      modifies this`rows, this`members
      ensures Valid()
      ensures (Contents(), r) == CheckpointStep(env, mgr, old(Contents()), now)
    {
      hide NewManifest, NewBundle, NewRow, Root, DigestMap, SealStep;
      SortedElements(store.events.Keys);
      var ids := SortKeys(store.events.Keys);
      var read := ReadEvents(ids);
      if read.Failure? {
        return Failure(read.error);
      }
      var items := read.value;
      if items == [] {
        return Failure(EmptyStore);
      }
      if rows != [] {
        var last := rows[|rows| - 1].sequence;
        var current := ToDictionary(items);
        var kept := PriorKept(if last in members then members[last] else [], current);
        if !kept {
          return Failure(ProvenanceBlocked);
        }
      }
      r := Seal(items, now);
    }

    method ReadEvents(ids: seq<string>) returns (r: Result<seq<Item>, CheckpointError>)
      requires forall id :: id in ids ==> id in store.events
      ensures r == CurrentItems(env, store.events, ids)
    {
      hide CurrentItem;
      var items: seq<Item> := [];
      for k := 0 to |ids|
        invariant CurrentItems(env, store.events, ids[..k]) == Success(items)
      {
        assert ids[..k + 1][..k] == ids[..k];
        var item := Revalidate(k + 1, ids[k], store.events[ids[k]]);
        if item.Failure? {
          ItemFailureSticks(env, store.events, ids, k + 1);
          return Failure(item.error);
        }
        items := items + [item.value];
      }
      assert ids[..|ids|] == ids;
      return Success(items);
    }

    /** A stored event must read back as a record with its own identifier and digest. */
    method Revalidate(ordinal: nat, id: string, row: StoredEvent) returns (r: Result<Item, CheckpointError>)
      ensures r == CurrentItem(env, ordinal, id, row)
    {
      hide SemanticDigest;
      var payload := env.load(row.payloadJson);
      if payload.None? || !payload.value.JObj? {
        return Failure(SemanticValidation);
      }
      var audit := AuditRecord(row.firstAudit, row.event, row.actor, payload.value.fields);
      var digest := ComputeDigest(env, audit);
      if digest.Failure? {
        return Failure(SemanticValidation);
      }
      if Get(payload.value.fields, OutboxEventId) != JStr(id) {
        return Failure(StableIdMismatch);
      }
      if digest.value != row.digest {
        return Failure(StoredDigestMismatch);
      }
      return Success(Item(ordinal, id, digest.value));
    }

    method PriorKept(prior: seq<Item>, current: map<string, string>) returns (kept: bool)
      ensures kept <==> Kept(prior, current)
    {
      for k := 0 to |prior|
        invariant Kept(prior[..k], current)
      {
        if prior[k].id !in current || current[prior[k].id] != prior[k].digest {
          return false;
        }
      }
      return true;
    }

    method Seal(items: seq<Item>, now: string) returns (r: Result<Json, CheckpointError>)
      requires Valid() && items != []
      modifies this`rows, this`members
      ensures Valid()
      ensures (Contents(), r) == SealStep(env, mgr, old(Contents()), items, now)
    {
      hide NewManifest, NewBundle, Root, SignatureInput, CheckpointIdText;
      var sequence, previous := 1, None;
      if rows != [] {
        sequence, previous := rows[|rows| - 1].sequence + 1, Some(rows[|rows| - 1].digest);
      }
      var root := Root(env.sha, items);
      var id := MakeId(sequence, root);
      var manifest := MakeManifest(sequence, id, previous, items, now);
      var text := env.dump(manifest);
      var digest := env.sha(text);
      var input := MakeInput(digest);
      var signature := mgr.sign(input);
      if signature.None? {
        return Failure(SignerRejected);
      }
      if |signature.value| != 64 {
        return Failure(SignatureShape);
      }
      if !env.check(mgr.publicKey, signature.value, input) {
        return Failure(Unverifiable);
      }
      var bundle := MakeBundle(manifest, signature.value);
      var row := Row(sequence, id, now, previous, digest, root, |items|, mgr.keyId, env.sha(mgr.publicKey), text,
                     signature.value, env.dump(bundle));
      var unique := IsUnique(row);
      if !unique || sequence in members {
        return Failure(UniqueViolation);
      }
      rows, members := rows + [row], members[sequence := items];
      return Success(bundle);
    }

    method MakeInput(digest: string) returns (input: string)
      ensures input == SignatureInput(digest)
    {
      return "WS-ECHO-CHECKPOINT-SIGNATURE-DIGEST-V1" + "\0" + digest;
    }

    /** The sequence in eight digits or more, and the first sixteen digits of the root. */
    method MakeId(sequence: nat, root: string) returns (id: string)
      ensures id == CheckpointIdText(sequence, root)
    {
      var start := root;
      if |start| > 16 {
        start := start[..16];
      }
      return "ECHO-CHK-" + Padded(Decimal(sequence), 8) + "-" + start;
    }

    method MakeManifest(sequence: nat, id: string, previous: Option<string>, items: seq<Item>, now: string)
      returns (manifest: Json)
      requires items != [] && id == CheckpointIdText(sequence, Root(env.sha, items))
      ensures manifest == NewManifest(env, mgr, sequence, previous, items, now)
    {
      hide Root, CheckpointIdText, ItemsJson, Boundary;
      var events := MakeEvents(items);
      var predecessor := JNull;
      if previous.Some? {
        predecessor := JStr(previous.value);
      }
      return JObj(map[Schema := JStr("WS-ECHO-CHECKPOINT-V1"), Issuer := JStr("ECHO_SENTINEL_LINK"),
                      CheckpointId := JStr(id), Sequence := JInt(sequence), CreatedAt := JStr(now),
                      PreviousCheckpoint := predecessor, EventCount := JInt(|items|), Events := JArr(events),
                      MerkleRootSha256 := JStr(Root(env.sha, items)), Algorithm := JStr("Ed25519"),
                      KeyId := JStr(mgr.keyId), KeyFingerprint := JStr(env.sha(mgr.publicKey)),
                      ClaimsBoundary := JStr(Boundary())]);
    }

    method MakeEvents(items: seq<Item>) returns (events: seq<Json>)
      ensures events == ItemsJson(items)
    {
      events := [];
      for k := 0 to |items|
        invariant events == ItemsJson(items)[..k]
      {
        events := events + [JObj(map[OrdinalField := JInt(items[k].ordinal), EventId := JStr(items[k].id),
                                     SemanticSha256 := JStr(items[k].digest)])];
      }
    }

    method MakeBundle(manifest: Json, signature: string) returns (bundle: Json)
      ensures bundle == NewBundle(env, mgr, manifest, signature)
    {
      var public := map[Schema := JStr("WS-ECHO-CHECKPOINT-PUBLIC-KEY-V1"), Issuer := JStr("ECHO_SENTINEL_LINK"),
                        Purpose := JStr("PROVENANCE_CHECKPOINT_SIGNING"), Algorithm := JStr("Ed25519"),
                        KeyId := JStr(mgr.keyId), PublicKeyText := JStr(mgr.publicKey),
                        Fingerprint := JStr(env.sha(mgr.publicKey))];
      return JObj(map[Schema := JStr("WS-ECHO-CHECKPOINT-BUNDLE-V1"), Manifest := manifest,
                      CheckpointSha256 := JStr(env.sha(env.dump(manifest))),
                      SignatureInputSchema := JStr("WS-ECHO-CHECKPOINT-SIGNATURE-DIGEST-V1"),
                      Signature := JStr(signature), PublicKey := JObj(public)]);
    }

    method IsUnique(row: Row) returns (unique: bool)
      ensures unique <==> Unique(rows, row)
    {
      for k := 0 to |rows|
        invariant Unique(rows[..k], row)
      {
        if rows[k].sequence == row.sequence || rows[k].checkpointId == row.checkpointId
            || rows[k].digest == row.digest {
          return false;
        }
      }
      return true;
    }
  }

  /** The checks made when a manager is created over a new database, to which it binds its key. */
  method NewManager(store: EchoEventStore, mgr: Manager) returns (r: Result<EchoCheckpointManager, CheckpointError>)
    ensures r.Success? <==> mgr.Configured()
    ensures r.Failure? ==> r.error in {BadKeyId, BadPublicKey}
    ensures r.Success? ==>
              && r.value.Valid() && r.value.mgr == mgr && r.value.store == store
              && r.value.Contents() == Fresh(store.env, mgr).(store := store.Contents())
  {
    if mgr.keyId == "" || |mgr.keyId| > 128 {
      return Failure(BadKeyId);
    }
    for i := 0 to |mgr.keyId|
      invariant forall j :: 0 <= j < i ==> IsIdChar(mgr.keyId[j])
    {
      var c := mgr.keyId[i];
      if !('A' <= c <= 'Z' || 'a' <= c <= 'z' || '0' <= c <= '9' || c in "._:-") {
        assert c in mgr.keyId && !IsIdChar(c);
        return Failure(BadKeyId);
      }
    }
    if |mgr.publicKey| != 32 {
      return Failure(BadPublicKey);
    }
    var manager := new EchoCheckpointManager(store, mgr);
    var rebound := manager.Bind();
    assert rebound == None;
    return Success(manager);
  }

  lemma {:induction false} ItemFailureSticks(env: Env, events: map<string, StoredEvent>, ids: seq<string>, k: nat)
    requires forall id :: id in ids ==> id in events
    requires k <= |ids| && CurrentItems(env, events, ids[..k]).Failure?
    ensures CurrentItems(env, events, ids) == CurrentItems(env, events, ids[..k])
    decreases |ids|
  {
    hide CurrentItem;
    if k == |ids| {
      assert ids[..k] == ids;
    } else {
      assert ids[..|ids| - 1][..k] == ids[..k];
      ItemFailureSticks(env, events, ids[..|ids| - 1], k);
    }
  }
}
