/** What the verifier accepts, said of the documents themselves: a bundle is accepted exactly when every field of it is
    genuine, and a chain exactly when each bundle is and consecutive ones fit together. */
module EchoAcceptance {
  import opened EchoVerify
  import opened JsonDocuments
  import opened Merkle
  import opened Text
  import opened Wrappers

  // ----- one bundle -----

  /** The bundle carries the key with the trusted fingerprint, and its manifest names that key. */
  ghost predicate GenuineKey(env: Env, bundle: Json, fingerprint: string, keyId: string) {
    && IsSha256(fingerprint)
    && (exists key: string ::
          KeyField(bundle, PublicKeyText) == JStr(key) && |key| == 32 && env.sha(key) == fingerprint)
    && KeyField(bundle, Fingerprint) == JStr(fingerprint)
    && ManifestField(bundle, KeyFingerprint) == JStr(fingerprint)
    && keyId != "" && KeyField(bundle, KeyId) == JStr(keyId) && ManifestField(bundle, KeyId) == JStr(keyId)
  }

  ghost predicate GenuineLabels(bundle: Json) {
    && Get(FieldsOf(bundle), Schema) == JStr("WS-ECHO-CHECKPOINT-BUNDLE-V1")
    && ManifestField(bundle, Schema) == JStr("WS-ECHO-CHECKPOINT-V1")
    && KeyField(bundle, Schema) == JStr("WS-ECHO-CHECKPOINT-PUBLIC-KEY-V1")
    && KeyField(bundle, Issuer) == JStr("ECHO_SENTINEL_LINK")
    && ManifestField(bundle, Issuer) == JStr("ECHO_SENTINEL_LINK")
    && KeyField(bundle, Purpose) == JStr("PROVENANCE_CHECKPOINT_SIGNING")
    && KeyField(bundle, Algorithm) == JStr("Ed25519")
    && ManifestField(bundle, Algorithm) == JStr("Ed25519")
  }

  /** The manifest's place in the chain is the one reported. */
  ghost predicate GenuinePlace(bundle: Json, v: Verified) {
    && v.sequence >= 1 && ManifestField(bundle, Sequence) == JInt(v.sequence)
    && v.checkpointId != "" && ManifestField(bundle, CheckpointId) == JStr(v.checkpointId)
    && ManifestField(bundle, PreviousCheckpoint) == (if v.previous.Some? then JStr(v.previous.value) else JNull)
    && (v.previous.Some? ==> IsSha256(v.previous.value))
  }

  /** The document of one event, and nothing more. */
  ghost predicate IsEvent(e: Json, item: Item, ordinal: nat) {
    && e.JObj? && e.fields.Keys == {OrdinalField, EventId, SemanticSha256}
    && SameValue(e.fields[OrdinalField], JInt(ordinal)) && item.ordinal == ordinal
    && item.id != "" && e.fields[EventId] == JStr(item.id)
    && IsSha256(item.digest) && e.fields[SemanticSha256] == JStr(item.digest)
  }

  ghost predicate AreEvents(events: seq<Json>, items: seq<Item>) {
    && |items| == |events|
    && (forall k: nat :: k < |events| ==> IsEvent(events[k], items[k], k + 1))
    && SortedItems(items)
  }

  ghost predicate GenuineEvents(env: Env, bundle: Json, items: seq<Item>) {
    && items != []
    && AreEvents(EventsOf(bundle), items)
    && SameValue(ManifestField(bundle, EventCount), JInt(|items|))
    && ManifestField(bundle, MerkleRootSha256) == JStr(Root(env.sha, items))
  }

  /** The digest is the hash of the manifest, and the key has signed it: the tagged digest, or the manifest itself in
      the older form. */
  ghost predicate GenuineSeal(env: Env, bundle: Json, v: Verified) {
    && v.digest == env.sha(env.dump(ManifestOf(bundle)))
    && Get(FieldsOf(bundle), CheckpointSha256) == JStr(v.digest)
    && Get(FieldsOf(bundle), SignatureInputSchema) ==
       (if v.legacySignature then JNull else JStr("WS-ECHO-CHECKPOINT-SIGNATURE-DIGEST-V1"))
    && (exists key: string, signature: string ::
          && KeyField(bundle, PublicKeyText) == JStr(key)
          && Get(FieldsOf(bundle), Signature) == JStr(signature) && |signature| == 64
          && env.check(key, signature,
                       if v.legacySignature then env.dump(ManifestOf(bundle))
                       else "WS-ECHO-CHECKPOINT-SIGNATURE-DIGEST-V1" + "\0" + v.digest))
  }

  ghost predicate Genuine(env: Env, bundle: Json, fingerprint: string, v: Verified) {
    && GenuineLabels(bundle)
    && GenuineKey(env, bundle, fingerprint, v.keyId)
    && GenuinePlace(bundle, v)
    && GenuineEvents(env, bundle, v.items)
    && GenuineSeal(env, bundle, v)
  }

  /** The one-pass reader accepts exactly the documents of the sorted list it returns. */
  lemma {:induction false} ReadItemsIff(events: seq<Json>, items: seq<Item>)
    ensures ReadItems(events) == Success(items) <==> AreEvents(events, items)
    decreases |events|
  {
    hide ReadItem, ReadItems, AreEvents;
    if events == [] {
      NothingRead();
      EmptyEvents(items);
    } else {
      var n := |events| - 1;
      ReadSnoc(events);
      if ReadItems(events) == Success(items) {
        var before := ReadItems(events[..n]).value;
        ReadItemsIff(events[..n], before);
        NextEvent(events, before, ReadItem(before, events[n]).value);
      }
      if AreEvents(events, items) {
        LastEvent(events, items);
        ReadItemsIff(events[..n], items[..n]);
        assert items == items[..n] + [items[n]];
      }
    }
  }

  lemma EmptyEvents(items: seq<Item>)
    ensures AreEvents([], items) <==> items == []
  {
  }

  lemma NextEvent(events: seq<Json>, before: seq<Item>, item: Item)
    requires events != [] && AreEvents(events[..|events| - 1], before)
    requires ReadItem(before, events[|events| - 1]) == Success(item)
    ensures AreEvents(events, before + [item])
  {
    hide IsEvent, ReadItem;
    var items, n := before + [item], |events| - 1;
    ReadItemIff(before, events[n], item);
    assert items[..n] == before;
    PrefixSorted(items);
    forall k: nat | k < |events| ensures IsEvent(events[k], items[k], k + 1) {
      assert k < n ==> events[..n][k] == events[k] && items[k] == before[k];
    }
    hide SortedItems, Less;
  }

  lemma LastEvent(events: seq<Json>, items: seq<Item>)
    requires events != [] && AreEvents(events, items)
    ensures var n := |events| - 1;
            && |items| == n + 1 && AreEvents(events[..n], items[..n])
            && ReadItem(items[..n], events[n]) == Success(items[n])
  {
    hide IsEvent, ReadItem;
    var n := |events| - 1;
    PrefixEvents(events, items);
    LastIsNew(items);
    ReadItemIff(items[..n], events[n], items[n]);
    assert n > 0 ==> Less(items[n - 1].id, items[n].id);
    hide Less, Ids;
  }

  lemma NothingRead()
    ensures ReadItems([]) == Success([])
  {
  }

  lemma ReadSnoc(events: seq<Json>)
    requires events != []
    ensures var n := |events| - 1;
            var before := ReadItems(events[..n]);
            ReadItems(events) ==
            if before.Failure? then before else
              var item := ReadItem(before.value, events[n]);
              if item.Failure? then Failure(item.error) else Success(before.value + [item.value])
  {
    hide ReadItem;
  }

  lemma ReadItemIff(before: seq<Item>, e: Json, item: Item)
    ensures ReadItem(before, e) == Success(item) <==>
            && IsEvent(e, item, |before| + 1) && item.id !in Ids(before)
            && (before != [] ==> Less(before[|before| - 1].id, item.id))
  {
    if e.JObj? && OrdinalField in e.fields {
      CountIsSameValue(e.fields[OrdinalField], |before| + 1);
    }
    hide SameValue, EqualsCount, Less, IsSha256, Ids;
  }

  lemma PrefixEvents(events: seq<Json>, items: seq<Item>)
    requires events != [] && AreEvents(events, items)
    ensures AreEvents(events[..|events| - 1], items[..|events| - 1])
  {
    hide IsEvent;
  }

  lemma PrefixSorted(items: seq<Item>)
    requires items != [] && SortedItems(items[..|items| - 1])
    requires |items| >= 2 ==> Less(items[|items| - 2].id, items[|items| - 1].id)
    ensures SortedItems(items)
  {
    var n := |items| - 1;
    forall i, j | 0 <= i < j < |items| ensures Less(items[i].id, items[j].id) {
      if j < n {
        assert items[..n][i] == items[i] && items[..n][j] == items[j];
      } else if i < n - 1 {
        assert Less(items[..n][i].id, items[..n][n - 1].id);
        LessTransitive(items[i].id, items[n - 1].id, items[n].id);
      }
    }
    hide Less;
  }

  lemma LastIsNew(items: seq<Item>)
    requires items != [] && SortedItems(items)
    ensures items[|items| - 1].id !in Ids(items[..|items| - 1])
  {
    hide Less;
    var n := |items| - 1;
    if items[n].id in Ids(items[..n]) {
      var k :| 0 <= k < n && items[..n][k].id == items[n].id;
      assert Less(items[k].id, items[n].id);
      LessIrreflexive(items[n].id);
    }
  }

  lemma HeaderIff(env: Env, bundle: Json, fingerprint: string)
    ensures HeaderError(env, bundle, fingerprint) == None <==>
            && GenuineLabels(bundle)
            && (exists keyId: string :: GenuineKey(env, bundle, fingerprint, keyId))
            && PositionError(bundle) == None
  {
    hide IsSha256, PositionError, HeaderError, GenuineLabels;
    var key, id := KeyField(bundle, PublicKeyText), KeyField(bundle, KeyId);
    if HeaderError(env, bundle, fingerprint) == None {
      HeaderParts(env, bundle, fingerprint);
      assert KeyField(bundle, PublicKeyText) == JStr(key.s) && |key.s| == 32 && env.sha(key.s) == fingerprint;
      assert GenuineKey(env, bundle, fingerprint, id.s);
    }
    if keyId: string :| GenuineLabels(bundle) && PositionError(bundle) == None
                        && GenuineKey(env, bundle, fingerprint, keyId)
    {
      GenuineHeader(env, bundle, fingerprint, keyId);
    }
  }

  lemma GenuineHeader(env: Env, bundle: Json, fingerprint: string, keyId: string)
    requires GenuineLabels(bundle) && PositionError(bundle) == None && GenuineKey(env, bundle, fingerprint, keyId)
    ensures HeaderError(env, bundle, fingerprint) == None
  {
    hide IsSha256, PositionError;
    KeyIsPresent(bundle);
  }

  /** A labelled key record is an object. */
  lemma KeyIsPresent(bundle: Json)
    requires GenuineLabels(bundle)
    ensures Get(FieldsOf(bundle), PublicKey).JObj?
  {
  }

  lemma HeaderParts(env: Env, bundle: Json, fingerprint: string)
    requires HeaderError(env, bundle, fingerprint) == None
    ensures GenuineLabels(bundle) && PositionError(bundle) == None && IsSha256(fingerprint)
    ensures var key, id := KeyField(bundle, PublicKeyText), KeyField(bundle, KeyId);
            && key.JStr? && |key.s| == 32 && env.sha(key.s) == fingerprint
            && KeyField(bundle, Fingerprint) == JStr(fingerprint) == ManifestField(bundle, KeyFingerprint)
            && id.JStr? && id.s != "" && ManifestField(bundle, KeyId) == id
  {
    hide IsSha256;
  }

  lemma PositionIff(bundle: Json)
    ensures PositionError(bundle) == None <==>
            && (exists v: Verified :: GenuinePlace(bundle, v))
            && ManifestField(bundle, Issuer) == JStr("ECHO_SENTINEL_LINK")
            && EventsOf(bundle) != [] && SameValue(ManifestField(bundle, EventCount), JInt(|EventsOf(bundle)|))
  {
    CountIsSameValue(ManifestField(bundle, EventCount), |EventsOf(bundle)|);
    hide SameValue, EqualsCount, IsSha256;
    if PositionError(bundle) == None {
      var previous := ManifestField(bundle, PreviousCheckpoint);
      var v := Verified(ManifestField(bundle, Sequence).value, ManifestField(bundle, CheckpointId).s, "",
                        if previous.JStr? then Some(previous.s) else None, [], "", false);
      assert GenuinePlace(bundle, v);
    }
  }

  /** A bundle is accepted, and reported as v, exactly when it is genuine. */
  lemma AcceptedIff(env: Env, bundle: Json, fingerprint: string, v: Verified)
    ensures BundleVerdict(env, bundle, fingerprint) == Success(v) <==> Genuine(env, bundle, fingerprint, v)
  {
    if BundleVerdict(env, bundle, fingerprint) == Success(v) {
      AcceptedIsGenuine(env, bundle, fingerprint);
    }
    if Genuine(env, bundle, fingerprint, v) {
      GenuineIsAccepted(env, bundle, fingerprint, v);
    }
  }

  lemma AcceptedParts(env: Env, bundle: Json, fingerprint: string)
    requires BundleVerdict(env, bundle, fingerprint).Success?
    ensures HeaderError(env, bundle, fingerprint) == None && PositionError(bundle) == None
    ensures IsText(KeyField(bundle, KeyId)) && KeyField(bundle, PublicKeyText).JStr?
    ensures var v := BundleVerdict(env, bundle, fingerprint).value;
            && v.items != [] && ReadItems(EventsOf(bundle)) == Success(v.items)
            && SealError(env, bundle, v.items) == None && v == Summary(env, bundle, v.items)
  {
    HeaderNonEmpty(env, bundle, fingerprint);
    ReadItemsSound(EventsOf(bundle));
    hide HeaderError, PositionError, SealError, ReadItems;
  }

  lemma AcceptedIsGenuine(env: Env, bundle: Json, fingerprint: string)
    requires BundleVerdict(env, bundle, fingerprint).Success?
    ensures Genuine(env, bundle, fingerprint, BundleVerdict(env, bundle, fingerprint).value)
  {
    hide HeaderError, PositionError, ReadItems, SealError, BundleVerdict, Summary;
    hide GenuineLabels, GenuineKey, GenuinePlace, GenuineSeal, AreEvents, Root, SameValue;
    AcceptedParts(env, bundle, fingerprint);
    var v := BundleVerdict(env, bundle, fingerprint).value;
    KeyIsGenuine(env, bundle, fingerprint, v.items);
    PlaceIsGenuine(env, bundle, v.items);
    PositionIff(bundle);
    ReadItemsIff(EventsOf(bundle), v.items);
    SameLength(EventsOf(bundle), v.items);
    SealIsGenuine(env, bundle, v.items);
  }

  lemma KeyIsGenuine(env: Env, bundle: Json, fingerprint: string, items: seq<Item>)
    requires HeaderError(env, bundle, fingerprint) == None && PositionError(bundle) == None
    requires IsText(KeyField(bundle, KeyId))
    ensures GenuineLabels(bundle) && GenuineKey(env, bundle, fingerprint, Summary(env, bundle, items).keyId)
  {
    HeaderParts(env, bundle, fingerprint);
    hide HeaderError, PositionError, GenuineLabels, IsSha256;
    assert KeyField(bundle, PublicKeyText) == JStr(KeyField(bundle, PublicKeyText).s);
  }

  lemma PlaceIsGenuine(env: Env, bundle: Json, items: seq<Item>)
    requires PositionError(bundle) == None && IsText(KeyField(bundle, KeyId))
    ensures GenuinePlace(bundle, Summary(env, bundle, items))
  {
    hide IsSha256, EqualsCount;
  }

  lemma SealIsGenuine(env: Env, bundle: Json, items: seq<Item>)
    requires items != [] && SealError(env, bundle, items) == None && KeyField(bundle, PublicKeyText).JStr?
    requires PositionError(bundle) == None && IsText(KeyField(bundle, KeyId))
    ensures GenuineSeal(env, bundle, Summary(env, bundle, items))
    ensures ManifestField(bundle, MerkleRootSha256) == JStr(Root(env.sha, items))
  {
    SealParts(env, bundle, items);
    hide SealError, PositionError, Root;
    assert KeyField(bundle, PublicKeyText) == JStr(KeyField(bundle, PublicKeyText).s);
    assert Get(FieldsOf(bundle), Signature) == JStr(Get(FieldsOf(bundle), Signature).s);
  }

  lemma SealParts(env: Env, bundle: Json, items: seq<Item>)
    requires items != [] && SealError(env, bundle, items) == None && KeyField(bundle, PublicKeyText).JStr?
    ensures var text, legacy := env.dump(ManifestOf(bundle)), Get(FieldsOf(bundle), SignatureInputSchema) == JNull;
            && ManifestField(bundle, MerkleRootSha256) == JStr(Root(env.sha, items))
            && Get(FieldsOf(bundle), CheckpointSha256) == JStr(env.sha(text))
            && (!legacy ==>
                  Get(FieldsOf(bundle), SignatureInputSchema) == JStr("WS-ECHO-CHECKPOINT-SIGNATURE-DIGEST-V1"))
            && Get(FieldsOf(bundle), Signature).JStr? && |Get(FieldsOf(bundle), Signature).s| == 64
            && env.check(KeyField(bundle, PublicKeyText).s, Get(FieldsOf(bundle), Signature).s,
                         if legacy then text else "WS-ECHO-CHECKPOINT-SIGNATURE-DIGEST-V1" + "\0" + env.sha(text))
  {
    hide Root;
  }

  lemma GenuineIsAccepted(env: Env, bundle: Json, fingerprint: string, v: Verified)
    requires Genuine(env, bundle, fingerprint, v)
    ensures BundleVerdict(env, bundle, fingerprint) == Success(v)
  {
    hide HeaderError, PositionError, ReadItems, SealError, Summary;
    hide GenuineLabels, GenuineKey, GenuinePlace, GenuineSeal, AreEvents, Root, SameValue;
    ReadItemsIff(EventsOf(bundle), v.items);
    SameLength(EventsOf(bundle), v.items);
    LabelledIssuer(bundle);
    PositionIff(bundle);
    HeaderIff(env, bundle, fingerprint);
    HeaderNonEmpty(env, bundle, fingerprint);
    GenuineSealed(env, bundle, v);
    GenuineSummary(env, bundle, fingerprint, v);
  }

  lemma LabelledIssuer(bundle: Json)
    requires GenuineLabels(bundle)
    ensures ManifestField(bundle, Issuer) == JStr("ECHO_SENTINEL_LINK")
  {
  }

  lemma GenuineSummary(env: Env, bundle: Json, fingerprint: string, v: Verified)
    requires GenuineKey(env, bundle, fingerprint, v.keyId) && GenuinePlace(bundle, v) && GenuineSeal(env, bundle, v)
    requires PositionError(bundle) == None && IsText(KeyField(bundle, KeyId))
    ensures Summary(env, bundle, v.items) == v
  {
    hide PositionError, IsSha256;
  }

  lemma SameLength(events: seq<Json>, items: seq<Item>)
    requires AreEvents(events, items)
    ensures |events| == |items|
  {
  }

  lemma GenuineSealed(env: Env, bundle: Json, v: Verified)
    requires v.items != [] && GenuineSeal(env, bundle, v)
    requires ManifestField(bundle, MerkleRootSha256) == JStr(Root(env.sha, v.items))
    ensures SealError(env, bundle, v.items) == None
  {
    hide Root;
  }

  // ----- a chain -----

  /** Every event of the earlier list is in the later one with the same digest. */
  ghost predicate KeepsEvents(earlier: seq<Item>, later: seq<Item>) {
    forall i :: 0 <= i < |earlier| ==> Certifies(later, earlier[i].id, earlier[i].digest)
  }

  ghost predicate FitsAfter(vs: seq<Verified>, k: nat)
    requires k < |vs|
  {
    && vs[k].sequence == k + 1
    && vs[k].previous == (if k == 0 then None else Some(vs[k - 1].digest))
    && (k > 0 ==> KeepsEvents(vs[k - 1].items, vs[k].items))
  }

  /** A chain is accepted, and reported as vs, exactly when it is not empty, each bundle is genuine, sequence numbers
      count from one, each names its predecessor's digest, and no certified event is ever dropped or changed. */
  lemma {:induction false} ChainAcceptedIff(env: Env, bundles: seq<Json>, fingerprint: string, vs: seq<Verified>)
    ensures ChainVerdict(env, bundles, fingerprint) == Success(vs) <==>
            && bundles != [] && |vs| == |bundles|
            && forall k: nat :: k < |bundles| ==> Genuine(env, bundles[k], fingerprint, vs[k]) && FitsAfter(vs, k)
  {
    hide Genuine, FitsAfter, Links;
    if bundles == [] {
    } else {
      LinksIff(env, bundles, fingerprint, vs);
    }
  }

  ghost predicate GenuineChain(env: Env, bundles: seq<Json>, fingerprint: string, vs: seq<Verified>) {
    |vs| == |bundles|
    && forall k: nat :: k < |bundles| ==> Genuine(env, bundles[k], fingerprint, vs[k]) && FitsAfter(vs, k)
  }

  lemma {:induction false} LinksIff(env: Env, bundles: seq<Json>, fingerprint: string, vs: seq<Verified>)
    ensures Links(env, bundles, fingerprint) == Success(vs) <==> GenuineChain(env, bundles, fingerprint, vs)
    decreases |bundles|
  {
    hide Genuine, LinkError, FitsAfter, BundleVerdict, Links, GenuineChain;
    LinksUnfold(env, bundles, fingerprint);
    if bundles == [] {
      EmptyChain(env, fingerprint, vs);
    } else {
      var n := |bundles| - 1;
      if Links(env, bundles, fingerprint) == Success(vs) {
        var init := Links(env, bundles[..n], fingerprint).value;
        LinksIff(env, bundles[..n], fingerprint, init);
        ChainLength(env, bundles[..n], fingerprint, init);
        AcceptedIff(env, bundles[n], fingerprint, vs[n]);
        assert vs[..n] == init;
        LinkIff(env, bundles, fingerprint, vs);
        GrowChain(env, bundles, fingerprint, vs);
      }
      if GenuineChain(env, bundles, fingerprint, vs) {
        ChainLength(env, bundles, fingerprint, vs);
        ShrinkChain(env, bundles, fingerprint, vs);
        LinksIff(env, bundles[..n], fingerprint, vs[..n]);
        AcceptedIff(env, bundles[n], fingerprint, vs[n]);
        LinkIff(env, bundles, fingerprint, vs);
        assert vs == vs[..n] + [vs[n]];
      }
    }
  }

  lemma LinksUnfold(env: Env, bundles: seq<Json>, fingerprint: string)
    ensures Links(env, bundles, fingerprint) ==
            if bundles == [] then Success([]) else
              var before := Links(env, bundles[..|bundles| - 1], fingerprint);
              if before.Failure? then before else ExtendChain(env, before.value, bundles[|bundles| - 1], fingerprint)
  {
    hide ExtendChain;
  }

  lemma EmptyChain(env: Env, fingerprint: string, vs: seq<Verified>)
    ensures GenuineChain(env, [], fingerprint, vs) <==> vs == []
  {
    hide Genuine;
  }

  lemma ChainLength(env: Env, bundles: seq<Json>, fingerprint: string, vs: seq<Verified>)
    requires GenuineChain(env, bundles, fingerprint, vs)
    ensures |vs| == |bundles|
    ensures forall k: nat :: k < |bundles| ==> Genuine(env, bundles[k], fingerprint, vs[k]) && FitsAfter(vs, k)
  {
    hide Genuine;
  }

  lemma GrowChain(env: Env, bundles: seq<Json>, fingerprint: string, vs: seq<Verified>)
    requires |vs| == |bundles| >= 1 && GenuineChain(env, bundles[..|bundles| - 1], fingerprint, vs[..|bundles| - 1])
    requires Genuine(env, bundles[|bundles| - 1], fingerprint, vs[|bundles| - 1]) && FitsAfter(vs, |bundles| - 1)
    ensures GenuineChain(env, bundles, fingerprint, vs)
  {
    hide Genuine, KeepsEvents;
    var n := |bundles| - 1;
    forall k: nat | k < |bundles| ensures Genuine(env, bundles[k], fingerprint, vs[k]) && FitsAfter(vs, k) {
      if k < n {
        assert Genuine(env, bundles[..n][k], fingerprint, vs[..n][k]) && FitsAfter(vs[..n], k);
      }
    }
  }

  lemma ShrinkChain(env: Env, bundles: seq<Json>, fingerprint: string, vs: seq<Verified>)
    requires bundles != [] && GenuineChain(env, bundles, fingerprint, vs)
    ensures GenuineChain(env, bundles[..|bundles| - 1], fingerprint, vs[..|bundles| - 1])
  {
    hide Genuine, KeepsEvents;
    var n := |bundles| - 1;
    forall k: nat | k < n ensures Genuine(env, bundles[..n][k], fingerprint, vs[..n][k]) && FitsAfter(vs[..n], k) {
      assert Genuine(env, bundles[k], fingerprint, vs[k]) && FitsAfter(vs, k);
    }
  }

  /** The last link is accepted exactly when the last summary fits after the others. */
  lemma LinkIff(env: Env, bundles: seq<Json>, fingerprint: string, vs: seq<Verified>)
    requires |vs| == |bundles| >= 1 && GenuineChain(env, bundles[..|bundles| - 1], fingerprint, vs[..|bundles| - 1])
    requires Genuine(env, bundles[|bundles| - 1], fingerprint, vs[|bundles| - 1])
    ensures LinkError(vs[..|vs| - 1], vs[|vs| - 1]) == None <==> FitsAfter(vs, |vs| - 1)
  {
    hide DigestMap, KeepsAll, KeepsEvents, Genuine;
    var n := |vs| - 1;
    if n > 0 {
      assert Genuine(env, bundles[..n][n - 1], fingerprint, vs[..n][n - 1]) && FitsAfter(vs[..n], n - 1);
      GenuineDistinct(env, bundles[n - 1], fingerprint, vs[n - 1]);
      GenuineDistinct(env, bundles[n], fingerprint, vs[n]);
      KeepsIff(vs[n - 1].items, vs[n].items);
    }
  }

  lemma GenuineDistinct(env: Env, bundle: Json, fingerprint: string, v: Verified)
    requires Genuine(env, bundle, fingerprint, v)
    ensures DistinctIds(v.items)
  {
    hide GenuineLabels, GenuineKey, GenuinePlace, GenuineSeal, Root, SameValue, Less, SortedItems;
    assert SortedItems(v.items) by { AreSorted(EventsOf(bundle), v.items); }
    SortedAreDistinct(v.items);
  }

  lemma AreSorted(events: seq<Json>, items: seq<Item>)
    requires AreEvents(events, items)
    ensures SortedItems(items)
  {
  }

  lemma KeepsIff(earlier: seq<Item>, later: seq<Item>)
    requires DistinctIds(earlier) && DistinctIds(later)
    ensures KeepsAll(DigestMap(earlier), DigestMap(later)) <==> KeepsEvents(earlier, later)
  {
    hide DigestMap;
    if KeepsAll(DigestMap(earlier), DigestMap(later)) {
      forall i | 0 <= i < |earlier| ensures Certifies(later, earlier[i].id, earlier[i].digest) {
        DigestMapMember(earlier, i);
        DigestMapSource(later, earlier[i].id);
      }
    }
    if KeepsEvents(earlier, later) {
      forall id | id in DigestMap(earlier)
        ensures id in DigestMap(later) && DigestMap(later)[id] == DigestMap(earlier)[id]
      {
        DigestMapSource(earlier, id);
        var i :| 0 <= i < |earlier| && earlier[i].id == id && earlier[i].digest == DigestMap(earlier)[id];
        assert Certifies(later, earlier[i].id, earlier[i].digest);
        var k :| 0 <= k < |later| && later[k].id == id && later[k].digest == earlier[i].digest;
        DigestMapMember(later, k);
      }
    }
  }
}
