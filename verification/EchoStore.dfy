/** The ECHO event store: idempotent ingest of audit records, reconciliation and health. */
module EchoStore {
  import opened JsonDocuments
  import opened Merkle
  import opened Wrappers

  const MAX_EVENTS := 4096
  const MAX_NAME := 128
  const MAX_ID_SUFFIX := 180

  datatype AuditRecord = AuditRecord(timestamp: string, event: string, actor: string, payload: map<Field, Json>)

  datatype StoredEvent = StoredEvent(digest: string, event: string, actor: string, payloadJson: string,
                                     firstAudit: string, lastAudit: string, firstIngested: string, lastSeen: string,
                                     deliveryCount: int)

  datatype Conflict = Conflict(id: string, storedDigest: string, observedDigest: string, observedAt: string)

  datatype StoreError =
    InvalidEventId | InvalidSemantics | InvalidEvent | InvalidActor | InvalidTimestamp | ConflictingContent | StoreFull

  datatype Outcome = Stored | Deduplicated

  datatype IngestResult = IngestResult(outcome: Outcome, id: string, row: StoredEvent)

  datatype Store = Store(events: map<string, StoredEvent>, conflicts: seq<Conflict>)

  // ----- stable identifiers and semantic digests -----

  predicate IsIdChar(c: char) {
    'A' <= c <= 'Z' || 'a' <= c <= 'z' || '0' <= c <= '9' || c == '.' || c == '_' || c == ':' || c == '-'
  }

  function IdPrefix(): string {
    "SARA-EVENT-"
  }

  predicate IsEventId(s: string) {
    var n := |IdPrefix()|;
    n < |s| <= n + MAX_ID_SUFFIX && s[..n] == IdPrefix() && forall c :: c in s[n..] ==> IsIdChar(c)
  }

  function EventIdOf(record: AuditRecord): Result<string, StoreError> {
    var id := Get(record.payload, OutboxEventId);
    if !id.JStr? || !IsEventId(id.s) then Failure(InvalidEventId)
    else if Get(record.payload, DeliverySemantics) != JStr("AT_LEAST_ONCE") then Failure(InvalidSemantics)
    else Success(id.s)
  }

  predicate IsName(s: string) {
    0 < |s| <= MAX_NAME
  }

  function SemanticDocument(record: AuditRecord): Json {
    JObj(map[Event := JStr(record.event), Actor := JStr(record.actor), Payload := JObj(record.payload)])
  }

  function SemanticDigest(env: Env, record: AuditRecord): Result<string, StoreError> {
    if !IsName(record.event) then Failure(InvalidEvent)
    else if !IsName(record.actor) then Failure(InvalidActor)
    else if !env.validTime(record.timestamp) then Failure(InvalidTimestamp)
    else if EventIdOf(record).Failure? then Failure(EventIdOf(record).error)
    else Success(env.sha(env.dump(SemanticDocument(record))))
  }

  /** Records that differ only in their timestamps have the same meaning, and only those do. */
  lemma DigestIgnoresTimestampOnly(env: Env, a: AuditRecord, b: AuditRecord)
    requires env.Faithful() && SemanticDigest(env, a).Success? && SemanticDigest(env, b).Success?
    requires CollisionFree(env.sha, {env.dump(SemanticDocument(a)), env.dump(SemanticDocument(b))})
    ensures SemanticDigest(env, a) == SemanticDigest(env, b) <==> a.(timestamp := b.timestamp) == b
  {
    if SemanticDigest(env, a) == SemanticDigest(env, b) {
      DumpInjective(env, SemanticDocument(a), SemanticDocument(b));
      var x, y := SemanticDocument(a).fields, SemanticDocument(b).fields;
      assert x[Event] == y[Event] && x[Actor] == y[Actor] && x[Payload] == y[Payload];
    }
  }

  // ----- ingest -----

  function IngestStep(env: Env, store: Store, record: AuditRecord, now: string):
      (Store, Result<IngestResult, StoreError>)
  {
    var id := EventIdOf(record);
    var digest := SemanticDigest(env, record);
    if id.Failure? then (store, Failure(id.error))
    else if digest.Failure? then (store, Failure(digest.error))
    else if id.value in store.events then
      var row := store.events[id.value];
      if row.digest != digest.value then
        var conflict := Conflict(id.value, row.digest, digest.value, now);
        (store.(conflicts := store.conflicts + [conflict]), Failure(ConflictingContent))
      else
        var row' := row.(lastAudit := record.timestamp, lastSeen := now, deliveryCount := row.deliveryCount + 1);
        (store.(events := store.events[id.value := row']), Success(IngestResult(Deduplicated, id.value, row')))
    else if |store.events| >= MAX_EVENTS then (store, Failure(StoreFull))
    else
      var row := StoredEvent(digest.value, record.event, record.actor, env.dump(JObj(record.payload)),
                             record.timestamp, record.timestamp, now, now, 1);
      (store.(events := store.events[id.value := row]), Success(IngestResult(Stored, id.value, row)))
  }

  /** The record a stored row stands for, rebuilt from its columns. */
  function Reloaded(env: Env, row: StoredEvent): Option<AuditRecord> {
    var payload := env.load(row.payloadJson);
    if payload.Some? && payload.value.JObj?
    then Some(AuditRecord(row.firstAudit, row.event, row.actor, payload.value.fields))
    else None
  }

  predicate RowHealthy(env: Env, id: string, row: StoredEvent) {
    var audit := Reloaded(env, row);
    && audit.Some?
    && EventIdOf(audit.value) == Success(id)
    && SemanticDigest(env, audit.value) == Success(row.digest)
    && row.deliveryCount >= 1
  }

  ghost predicate Healthy(env: Env, store: Store) {
    |store.events| <= MAX_EVENTS && forall id :: id in store.events ==> RowHealthy(env, id, store.events[id])
  }

  /** What a later ingest may never change about a stored event. */
  ghost predicate SameProvenance(a: StoredEvent, b: StoredEvent) {
    && a.digest == b.digest && a.event == b.event && a.actor == b.actor && a.payloadJson == b.payloadJson
    && a.firstAudit == b.firstAudit && a.firstIngested == b.firstIngested && a.deliveryCount <= b.deliveryCount
  }

  ghost predicate Extends(was: Store, after: Store) {
    forall id :: id in was.events ==> id in after.events && SameProvenance(was.events[id], after.events[id])
  }

  /** An accepted record leaves a row that reads back as a valid record with the row's own digest. */
  lemma StoredRowHealthy(env: Env, store: Store, record: AuditRecord, now: string)
    requires env.Faithful() && Healthy(env, store)
    requires IngestStep(env, store, record, now).1.Success?
    ensures var r := IngestStep(env, store, record, now).1.value;
            EventIdOf(record) == Success(r.id) && RowHealthy(env, r.id, r.row)
  {
    hide EventIdOf, SemanticDigest, IsSha256;
    var r := IngestStep(env, store, record, now).1.value;
    if r.outcome == Stored {
      assert env.load(env.dump(JObj(record.payload))) == Some(JObj(record.payload));
      assert Reloaded(env, r.row) == Some(record);
    } else {
      assert RowHealthy(env, r.id, store.events[r.id]);
      assert Reloaded(env, r.row) == Reloaded(env, store.events[r.id]);
    }
  }

  lemma IngestKeepsHealthy(env: Env, store: Store, record: AuditRecord, now: string)
    requires env.Faithful() && Healthy(env, store)
    ensures Healthy(env, IngestStep(env, store, record, now).0)
    ensures Extends(store, IngestStep(env, store, record, now).0)
  {
    hide EventIdOf, SemanticDigest, RowHealthy, IsSha256;
    var (next, r) := IngestStep(env, store, record, now);
    if r.Success? {
      StoredRowHealthy(env, store, record, now);
      assert next.events == store.events[r.value.id := r.value.row];
      if r.value.id in store.events {
        assert next.events.Keys == store.events.Keys;
      } else {
        assert next.events.Keys == store.events.Keys + {r.value.id};
      }
    }
  }

  // ----- runs of ingests -----

  datatype Delivery = Delivery(record: AuditRecord, now: string)

  const EMPTY := Store(map[], [])

  function IngestAll(env: Env, store: Store, ds: seq<Delivery>): Store {
    if ds == [] then store else
      var last := ds[|ds| - 1];
      IngestStep(env, IngestAll(env, store, ds[..|ds| - 1]), last.record, last.now).0
  }

  /** The result of the last ingest of a run. */
  function LastResult(env: Env, store: Store, ds: seq<Delivery>): Result<IngestResult, StoreError>
    requires ds != []
  {
    var last := ds[|ds| - 1];
    IngestStep(env, IngestAll(env, store, ds[..|ds| - 1]), last.record, last.now).1
  }

  function Accepted(env: Env, store: Store, ds: seq<Delivery>, id: string): nat {
    if ds == [] then 0 else
      var r := LastResult(env, store, ds);
      Accepted(env, store, ds[..|ds| - 1], id) + if r.Success? && r.value.id == id then 1 else 0
  }

  function Rejected(env: Env, store: Store, ds: seq<Delivery>): nat {
    if ds == [] then 0 else
      Rejected(env, store, ds[..|ds| - 1])
      + if LastResult(env, store, ds) == Failure(ConflictingContent) then 1 else 0
  }

  function Count(store: Store, id: string): int {
    if id in store.events then store.events[id].deliveryCount else 0
  }

  /** One ingest adds one to the count of the identifier it accepts, and one conflict when it refuses one. */
  lemma StepAccounting(env: Env, store: Store, record: AuditRecord, now: string, id: string)
    ensures var (next, r) := IngestStep(env, store, record, now);
            && Count(next, id) == Count(store, id) + (if r.Success? && r.value.id == id then 1 else 0)
            && |next.conflicts| == |store.conflicts| + (if r == Failure(ConflictingContent) then 1 else 0)
  {
    hide EventIdOf, SemanticDigest;
    EventIdErrors(record);
    DigestErrors(env, record);
  }

  lemma EventIdErrors(record: AuditRecord)
    ensures EventIdOf(record) != Failure(ConflictingContent)
  {
  }

  lemma DigestErrors(env: Env, record: AuditRecord)
    ensures SemanticDigest(env, record) != Failure(ConflictingContent)
  {
  }

  /** Every run from an empty store accounts for itself: counts are accepted deliveries, conflicts are refusals. */
  lemma {:induction false} RunAccounting(env: Env, ds: seq<Delivery>, id: string)
    requires env.Faithful()
    ensures Healthy(env, IngestAll(env, EMPTY, ds))
    ensures Count(IngestAll(env, EMPTY, ds), id) == Accepted(env, EMPTY, ds, id)
    ensures |IngestAll(env, EMPTY, ds).conflicts| == Rejected(env, EMPTY, ds)
    decreases |ds|
  {
    hide EventIdOf, SemanticDigest, RowHealthy, IsSha256;
    if ds == [] {
    } else {
      var init, last := ds[..|ds| - 1], ds[|ds| - 1];
      RunAccounting(env, init, id);
      hide IngestStep, Count;
      IngestKeepsHealthy(env, IngestAll(env, EMPTY, init), last.record, last.now);
      StepAccounting(env, IngestAll(env, EMPTY, init), last.record, last.now, id);
    }
  }

  /** Deliveries that would be accepted at all agree, per identifier, on the digest `meaning` gives. */
  ghost predicate Agreeing(env: Env, ds: seq<Delivery>, meaning: map<string, string>) {
    forall i :: 0 <= i < |ds| ==> Agrees(env, ds[i].record, meaning)
  }

  ghost predicate Agrees(env: Env, record: AuditRecord, meaning: map<string, string>) {
    var id, digest := EventIdOf(record), SemanticDigest(env, record);
    id.Success? && digest.Success? ==> id.value in meaning && digest.value == meaning[id.value]
  }

  ghost predicate StoresMeaning(store: Store, meaning: map<string, string>) {
    store.conflicts == [] && forall id :: id in store.events ==> id in meaning && store.events[id].digest == meaning[id]
  }

  /** Whatever their order and multiplicity, agreeing deliveries never raise a conflict. */
  lemma {:induction false} AgreeingNeverConflict(env: Env, ds: seq<Delivery>, meaning: map<string, string>)
    requires Agreeing(env, ds, meaning)
    ensures StoresMeaning(IngestAll(env, EMPTY, ds), meaning)
    decreases |ds|
  {
    hide IngestStep, Agrees, StoresMeaning;
    if ds == [] {
      EmptyStoresMeaning(meaning);
    } else {
      var init, last := ds[..|ds| - 1], ds[|ds| - 1];
      forall i | 0 <= i < |init| ensures Agrees(env, init[i].record, meaning) {
        assert init[i] == ds[i];
      }
      AgreeingNeverConflict(env, init, meaning);
      AgreeingStep(env, IngestAll(env, EMPTY, init), last.record, last.now, meaning);
    }
  }

  lemma EmptyStoresMeaning(meaning: map<string, string>)
    ensures StoresMeaning(EMPTY, meaning)
  {
  }

  lemma AgreeingStep(env: Env, store: Store, record: AuditRecord, now: string,
                     meaning: map<string, string>)
    requires StoresMeaning(store, meaning) && Agrees(env, record, meaning)
    ensures StoresMeaning(IngestStep(env, store, record, now).0, meaning)
  {
    hide EventIdOf, SemanticDigest;
  }

  /** Every delivery is valid, and deliveries of one identifier agree on the digest `meaning` gives it. */
  ghost predicate Consistent(env: Env, ds: seq<Delivery>, meaning: map<string, string>) {
    forall i :: 0 <= i < |ds| ==> Means(env, ds[i].record, meaning)
  }

  ghost predicate Means(env: Env, record: AuditRecord, meaning: map<string, string>) {
    var id := EventIdOf(record);
    id.Success? && id.value in meaning && SemanticDigest(env, record) == Success(meaning[id.value])
  }

  function Occurrences(ds: seq<Delivery>, id: string): nat {
    if ds == [] then 0 else
      Occurrences(ds[..|ds| - 1], id) + if EventIdOf(ds[|ds| - 1].record) == Success(id) then 1 else 0
  }

  ghost predicate Mirrors(store: Store, ds: seq<Delivery>, meaning: map<string, string>) {
    && store.conflicts == []
    && store.events.Keys <= meaning.Keys
    && (forall id :: Count(store, id) == Occurrences(ds, id))
    && (forall id :: id in store.events ==> store.events[id].digest == meaning[id] && Count(store, id) >= 1)
  }

  /** Duplicates and reordering are harmless: each delivery is accepted, each identifier is stored once, and its
      count is the number of its deliveries. */
  lemma {:induction false} AtLeastOnceIngest(env: Env, ds: seq<Delivery>, meaning: map<string, string>)
    requires Consistent(env, ds, meaning) && |meaning| <= MAX_EVENTS
    ensures Mirrors(IngestAll(env, EMPTY, ds), ds, meaning)
    ensures ds != [] ==> LastResult(env, EMPTY, ds).Success?
    decreases |ds|
  {
    hide EventIdOf, SemanticDigest, IngestStep, Means;
    if ds == [] {
      assert EMPTY.events.Keys == {};
    } else {
      var init, last := ds[..|ds| - 1], ds[|ds| - 1];
      assert Means(env, last.record, meaning);
      forall i | 0 <= i < |init| ensures Means(env, init[i].record, meaning) {
        assert init[i] == ds[i];
      }
      AtLeastOnceIngest(env, init, meaning);
      ConsistentStep(env, IngestAll(env, EMPTY, init), init, last, meaning);
      assert ds == init + [last];
    }
  }

  lemma AgreeingIngest(env: Env, store: Store, record: AuditRecord, now: string, id: string,
                       digest: string)
    requires EventIdOf(record) == Success(id) && SemanticDigest(env, record) == Success(digest)
    requires if id in store.events then store.events[id].digest == digest else |store.events| < MAX_EVENTS
    ensures var (next, r) := IngestStep(env, store, record, now);
            && r.Success? && r.value.id == id && r.value.row.digest == digest
            && next == Store(store.events[id := r.value.row], store.conflicts)
  {
    hide EventIdOf, SemanticDigest;
  }

  lemma ConsistentStep(env: Env, store: Store, init: seq<Delivery>, last: Delivery,
                       meaning: map<string, string>)
    requires Mirrors(store, init, meaning) && Means(env, last.record, meaning) && |meaning| <= MAX_EVENTS
    ensures IngestStep(env, store, last.record, last.now).1.Success?
    ensures Mirrors(IngestStep(env, store, last.record, last.now).0, init + [last], meaning)
  {
    hide EventIdOf, SemanticDigest, Count, IngestStep;
    var id := EventIdOf(last.record).value;
    if id !in store.events {
      assert store.events.Keys + {id} <= meaning.Keys;
      SubsetSize(store.events.Keys + {id}, meaning.Keys);
      assert |meaning.Keys| == |meaning| && |store.events.Keys| == |store.events|;
    }
    AgreeingIngest(env, store, last.record, last.now, id, meaning[id]);
    var (next, r) := IngestStep(env, store, last.record, last.now);
    assert (init + [last])[..|init|] == init;
    forall other ensures Count(next, other) == Occurrences(init + [last], other) {
      StepAccounting(env, store, last.record, last.now, other);
      assert Count(store, other) == Occurrences(init, other);
    }
    forall other | other in next.events ensures next.events[other].digest == meaning[other] && Count(next, other) >= 1 {
      StepAccounting(env, store, last.record, last.now, other);
      assert Count(store, other) == Occurrences(init, other);
    }
  }

  lemma SubsetSize(a: set<string>, b: set<string>)
    requires a <= b
    ensures |a| <= |b|
  {
    assert b == a + (b - a);
  }

  // ----- the store -----

  lemma NoneUnhealthy(env: Env, store: Store, bad: set<string>)
    requires bad == set id | id in store.events && !RowHealthy(env, id, store.events[id])
    ensures Healthy(env, store) <==> |bad| == 0 && |store.events| <= MAX_EVENTS
  {
    hide RowHealthy;
    if bad == {} {
      forall id | id in store.events ensures RowHealthy(env, id, store.events[id]) {
        assert id !in bad;
      }
    }
  }

  class EchoEventStore {
    const env: Env
    var events: map<string, StoredEvent>
    var conflicts: seq<Conflict>

    ghost function Contents(): Store
      reads this
    {
      Store(events, conflicts)
    }

    constructor (env: Env)
      ensures this.env == env && Contents() == EMPTY
    {
      this.env := env;
      events, conflicts := map[], [];
    }

    /** Stores a new event, counts a repeated one, or records a conflict; errors change nothing else. */
    method Ingest(record: AuditRecord, now: string) returns (r: Result<IngestResult, StoreError>)
      modifies this`events, this`conflicts
      ensures (Contents(), r) == IngestStep(env, old(Contents()), record, now)
    {
      var id := ReadEventId(record);
      if id.Failure? {
        return Failure(id.error);
      }
      var digest := ComputeDigest(env, record);
      if digest.Failure? {
        return Failure(digest.error);
      }
      if id.value in events {
        var row := events[id.value];
        if row.digest != digest.value {
          conflicts := conflicts + [Conflict(id.value, row.digest, digest.value, now)];
          return Failure(ConflictingContent);
        }
        row := row.(lastAudit := record.timestamp, lastSeen := now, deliveryCount := row.deliveryCount + 1);
        events := events[id.value := row];
        return Success(IngestResult(Deduplicated, id.value, row));
      }
      if |events| >= 4096 {
        return Failure(StoreFull);
      }
      var row := StoredEvent(digest.value, record.event, record.actor, env.dump(JObj(record.payload)),
                             record.timestamp, record.timestamp, now, now, 1);
      events := events[id.value := row];
      return Success(IngestResult(Stored, id.value, row));
    }

    /** A row reads back when its columns form a record with the row's own identifier and digest. */
    method ReadsBack(id: string, row: StoredEvent) returns (ok: bool)
      ensures ok == RowHealthy(env, id, row)
    {
      hide EventIdOf, SemanticDigest;
      var payload := env.load(row.payloadJson);
      if payload.None? || !payload.value.JObj? {
        return false;
      }
      var record := AuditRecord(row.firstAudit, row.event, row.actor, payload.value.fields);
      var stable := ReadEventId(record);
      var digest := ComputeDigest(env, record);
      return stable.Success? && stable.value == id && digest.Success? && digest.value == row.digest
             && !(row.deliveryCount < 1);
    }

    /** Recounts the rows that do not read back as themselves. */
    method Health() returns (ok: bool, malformed: nat)
      ensures malformed == |set id | id in events && !RowHealthy(env, id, events[id])|
      ensures ok <==> Healthy(env, Contents())
    {
      hide RowHealthy, Healthy;
      malformed := 0;
      ghost var bad: set<string> := {};
      var left := events.Keys;
      while left != {}
        invariant left <= events.Keys && malformed == |bad|
        invariant bad == set id | id in events && id !in left && !RowHealthy(env, id, events[id])
        decreases |left|
      {
        var id :| id in left;
        left := left - {id};
        var fine := ReadsBack(id, events[id]);
        if !fine {
          malformed := malformed + 1;
          bad := bad + {id};
        }
      }
      ok := malformed == 0 && |events| <= 4096;
      NoneUnhealthy(env, Contents(), bad);
    }
  }

  /** The digest of the record without its timestamp. */
  method ComputeDigest(env: Env, record: AuditRecord) returns (r: Result<string, StoreError>)
    ensures r == SemanticDigest(env, record)
  {
    hide EventIdOf;
    if record.event == "" || |record.event| > 128 {
      return Failure(InvalidEvent);
    }
    if record.actor == "" || |record.actor| > 128 {
      return Failure(InvalidActor);
    }
    if !env.validTime(record.timestamp) {
      return Failure(InvalidTimestamp);
    }
    var id := ReadEventId(record);
    if id.Failure? {
      return Failure(id.error);
    }
    var document := map[Event := JStr(record.event), Actor := JStr(record.actor), Payload := JObj(record.payload)];
    return Success(env.sha(env.dump(JObj(document))));
  }

  /** The stable identifier of a record: a fixed prefix and up to 180 letters, digits, dots, colons, underscores or
      hyphens. */
  method ReadEventId(record: AuditRecord) returns (r: Result<string, StoreError>)
    ensures r == EventIdOf(record)
  {
    var value := Get(record.payload, OutboxEventId);
    if !value.JStr? {
      return Failure(InvalidEventId);
    }
    var matches := MatchEventId(value.s);
    if !matches {
      return Failure(InvalidEventId);
    }
    if Get(record.payload, DeliverySemantics) != JStr("AT_LEAST_ONCE") {
      return Failure(InvalidSemantics);
    }
    return Success(value.s);
  }

  method MatchEventId(s: string) returns (matches: bool)
    ensures matches == IsEventId(s)
  {
    if |s| < 12 || |s| > 191 || s[..11] != "SARA-EVENT-" {
      return false;
    }
    for i := 11 to |s|
      invariant forall j :: 11 <= j < i ==> IsIdChar(s[j])
    {
      var c := s[i];
      if !('A' <= c <= 'Z' || 'a' <= c <= 'z' || '0' <= c <= '9' || c in "._:-") {
        assert s[11..][i - 11] == c && !IsIdChar(c);
        assert c in s[11..];
        return false;
      }
    }
    return true;
  }
}
