/** What a successful integrity check guarantees of the database: every stored column, copy and membership row agrees
    with a genuine bundle, and the bundles form an accepted chain. */
module EchoSoundness {
  import opened EchoAcceptance
  import opened EchoIntegrity
  import opened EchoLedger
  import opened EchoVerify
  import opened JsonDocuments
  import opened Wrappers

  /** The columns of a row are the fields of its bundle. */
  ghost predicate ColumnsAgree(row: Row, bundle: Json, v: Verified, fingerprint: string) {
    && row.checkpointId == v.checkpointId
    && ManifestField(bundle, CreatedAt) == JStr(row.createdAt)
    && row.previous == v.previous
    && row.digest == v.digest
    && ManifestField(bundle, MerkleRootSha256) == JStr(row.root)
    && SameValue(ManifestField(bundle, EventCount), JInt(row.eventCount))
    && row.keyId == v.keyId
    && row.fingerprint == fingerprint
    && Get(FieldsOf(bundle), Signature) == JStr(row.signature)
  }

  /** Row k: in sequence, its stored bundle genuine under the manager's key and reported as v, the stored manifest copy
      equal to the bundle's manifest, the columns its fields, and the membership rows exactly its events. */
  ghost predicate RowSound(env: Env, mgr: Manager, db: Db, k: nat, v: Verified)
    requires k < |db.rows|
  {
    var row := db.rows[k];
    && row.sequence == k + 1
    && (exists bundle: Json, copy: Json ::
          && env.load(row.bundleJson) == Some(bundle) && bundle.JObj?
          && env.load(row.manifestJson) == Some(copy) && SameValue(copy, ManifestOf(bundle))
          && PreviousCheckpoint in FieldsOf(ManifestOf(bundle))
          && Genuine(env, bundle, mgr.Key(env), v)
          && ColumnsAgree(row, bundle, v, mgr.Key(env)))
    && MembersOf(db, k + 1) == v.items
  }

  /** The check succeeds with the summaries vs exactly when the key is bound, every row is sound, and the bundles follow
      on from each other. */
  lemma IntegrityIff(env: Env, mgr: Manager, db: Db, vs: seq<Verified>)
    ensures Integrity(env, mgr, db) == Success(vs) <==>
            && mgr.keyId in db.bindings && db.bindings[mgr.keyId] == mgr.Key(env)
            && |vs| == |db.rows|
            && forall k: nat :: k < |db.rows| ==> RowSound(env, mgr, db, k, vs[k]) && FitsAfter(vs, k)
  {
    hide RowSound, FitsAfter, FirstRowError, ChainVerdict, Genuine, Bundles;
    if db.rows == [] {
    } else {
      ChainAcceptedIff(env, Bundles(env, db.rows), mgr.Key(env), vs);
      if Integrity(env, mgr, db) == Success(vs) {
        forall k: nat | k < |db.rows| ensures RowSound(env, mgr, db, k, vs[k]) {
          BundleAt(env, db.rows, k);
          NoRowError(env, mgr, db, |db.rows|, k);
          AcceptedIff(env, StoredBundleOf(env, db.rows[k]), mgr.Key(env), vs[k]);
          RowIff(env, mgr, db, k, vs[k]);
        }
      }
      if mgr.keyId in db.bindings && db.bindings[mgr.keyId] == mgr.Key(env) && |vs| == |db.rows|
         && forall k: nat :: k < |db.rows| ==> RowSound(env, mgr, db, k, vs[k]) && FitsAfter(vs, k)
      {
        forall k: nat | k < |db.rows|
          ensures Genuine(env, Bundles(env, db.rows)[k], mgr.Key(env), vs[k])
          ensures RowError(env, mgr, db.rows[k], k + 1, MembersOf(db, k + 1)) == None
        {
          BundleAt(env, db.rows, k);
          SoundIsGenuine(env, mgr, db, k, vs[k]);
          AcceptedIff(env, StoredBundleOf(env, db.rows[k]), mgr.Key(env), vs[k]);
          RowIff(env, mgr, db, k, vs[k]);
        }
        AllRowsPass(env, mgr, db, |db.rows|);
      }
    }
  }

  lemma BundleAt(env: Env, rows: seq<Row>, k: nat)
    requires k < |rows|
    ensures Bundles(env, rows)[k] == StoredBundleOf(env, rows[k])
  {
  }

  lemma {:induction false} NoRowError(env: Env, mgr: Manager, db: Db, n: nat, k: nat)
    requires k < n <= |db.rows| && FirstRowError(env, mgr, db, n) == None
    ensures RowError(env, mgr, db.rows[k], k + 1, MembersOf(db, k + 1)) == None
    decreases n
  {
    hide RowError;
    if k == n - 1 {
    } else {
      NoRowError(env, mgr, db, n - 1, k);
    }
  }

  lemma {:induction false} AllRowsPass(env: Env, mgr: Manager, db: Db, n: nat)
    requires n <= |db.rows|
    requires forall k: nat :: k < n ==> RowError(env, mgr, db.rows[k], k + 1, MembersOf(db, k + 1)) == None
    ensures FirstRowError(env, mgr, db, n) == None
  {
    hide RowError;
    if n == 0 {
    } else {
      AllRowsPass(env, mgr, db, n - 1);
    }
  }

  lemma SoundIsGenuine(env: Env, mgr: Manager, db: Db, k: nat, v: Verified)
    requires k < |db.rows| && RowSound(env, mgr, db, k, v)
    ensures Genuine(env, StoredBundleOf(env, db.rows[k]), mgr.Key(env), v)
  {
    hide Genuine, SameValue;
  }

  /** For an accepted bundle the row comparisons all pass exactly when the row is sound. */
  lemma RowIff(env: Env, mgr: Manager, db: Db, k: nat, v: Verified)
    requires k < |db.rows|
    requires BundleVerdict(env, StoredBundleOf(env, db.rows[k]), mgr.Key(env)) == Success(v)
    requires Genuine(env, StoredBundleOf(env, db.rows[k]), mgr.Key(env), v)
    ensures RowError(env, mgr, db.rows[k], k + 1, MembersOf(db, k + 1)) == None <==> RowSound(env, mgr, db, k, v)
  {
    hide BundleVerdict, Genuine, GenuineEvents, GenuineLabels, SameValue, EqualsCount;
    var row, bundle := db.rows[k], StoredBundleOf(env, db.rows[k]);
    var manifest := ManifestOf(bundle);
    CountIsSameValue(ManifestField(bundle, EventCount), row.eventCount);
    GenuineColumns(env, bundle, mgr.Key(env), v);
    var load := env.load(row.manifestJson);
    if RowError(env, mgr, row, k + 1, MembersOf(db, k + 1)) == None {
      assert env.load(row.bundleJson) == Some(bundle) && load == Some(load.value);
      assert ColumnsAgree(row, bundle, v, mgr.Key(env));
    }
    if RowSound(env, mgr, db, k, v) {
      var b: Json, copy: Json :|
        && env.load(row.bundleJson) == Some(b) && b.JObj?
        && env.load(row.manifestJson) == Some(copy) && SameValue(copy, ManifestOf(b))
        && PreviousCheckpoint in FieldsOf(ManifestOf(b))
        && Genuine(env, b, mgr.Key(env), v)
        && ColumnsAgree(row, b, v, mgr.Key(env));
      assert b == bundle;
      SameAsObject(copy, manifest);
    }
  }

  /** What a genuine bundle says of the fields that the columns repeat. */
  lemma GenuineColumns(env: Env, bundle: Json, fingerprint: string, v: Verified)
    requires Genuine(env, bundle, fingerprint, v)
    ensures ManifestOf(bundle).JObj?
    ensures ManifestField(bundle, CheckpointId) == JStr(v.checkpointId)
    ensures ManifestField(bundle, PreviousCheckpoint) == OptionalText(v.previous)
    ensures ManifestField(bundle, KeyId) == JStr(v.keyId) && ManifestField(bundle, KeyFingerprint) == JStr(fingerprint)
  {
    hide GenuineEvents, GenuineSeal;
  }

  lemma SameAsObject(copy: Json, manifest: Json)
    requires manifest.JObj? && SameValue(copy, manifest)
    ensures copy.JObj?
  {
  }
}
