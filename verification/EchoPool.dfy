/** Deliveries drawn from a pool of records, in any order and with any repetitions: exactly when the event store takes
    them without a conflict, and exactly when it takes them all. */
module EchoPool {
  import opened EchoStore
  import opened JsonDocuments
  import opened Wrappers

  /** The store's own checks of one record: identifier, semantics, names and timestamp. */
  predicate Acceptable(env: Env, a: AuditRecord) {
    EventIdOf(a).Success? && SemanticDigest(env, a).Success?
  }

  ghost predicate DrawnFrom(ds: seq<Delivery>, pool: seq<AuditRecord>) {
    forall i :: 0 <= i < |ds| ==> ds[i].record in pool
  }

  /** Acceptable records of one identifier have one digest. */
  ghost predicate OneDigest(env: Env, pool: seq<AuditRecord>) {
    forall a, b ::
      a in pool && b in pool && Acceptable(env, a) && Acceptable(env, b) && EventIdOf(a) == EventIdOf(b) ==>
      SemanticDigest(env, a) == SemanticDigest(env, b)
  }

  function PoolIds(env: Env, pool: seq<AuditRecord>): set<string> {
    set a | a in pool && Acceptable(env, a) :: EventIdOf(a).value
  }

  ghost function DigestIn(env: Env, pool: seq<AuditRecord>, id: string): string
    requires id in PoolIds(env, pool)
  {
    var a :| a in pool && Acceptable(env, a) && EventIdOf(a).value == id;
    SemanticDigest(env, a).value
  }

  ghost function PoolMeaning(env: Env, pool: seq<AuditRecord>): (m: map<string, string>)
    ensures m.Keys == PoolIds(env, pool) && |m| == |PoolIds(env, pool)|
  {
    var m := map id | id in PoolIds(env, pool) :: DigestIn(env, pool, id);
    assert m.Keys == PoolIds(env, pool) && |m| == |m.Keys|;
    m
  }

  lemma MeaningOfRecord(env: Env, pool: seq<AuditRecord>, a: AuditRecord)
    requires OneDigest(env, pool) && a in pool && Acceptable(env, a)
    ensures Means(env, a, PoolMeaning(env, pool))
  {
    hide EventIdOf, SemanticDigest;
    assert EventIdOf(a).value in PoolIds(env, pool);
  }

  lemma PoolAgrees(env: Env, pool: seq<AuditRecord>, ds: seq<Delivery>)
    requires OneDigest(env, pool) && DrawnFrom(ds, pool)
    ensures Agreeing(env, ds, PoolMeaning(env, pool))
  {
    hide EventIdOf, SemanticDigest, PoolMeaning, OneDigest;
    forall i | 0 <= i < |ds| ensures Agrees(env, ds[i].record, PoolMeaning(env, pool)) {
      if Acceptable(env, ds[i].record) {
        MeaningOfRecord(env, pool, ds[i].record);
      }
    }
  }

  /** Two acceptable records of one identifier, one after the other. */
  lemma DeliverPair(env: Env, a: AuditRecord, b: AuditRecord, now: string)
    requires Acceptable(env, a) && Acceptable(env, b) && EventIdOf(a) == EventIdOf(b)
    ensures var ds := [Delivery(a, now), Delivery(b, now)];
            if SemanticDigest(env, a) == SemanticDigest(env, b)
            then IngestAll(env, EMPTY, ds).conflicts == [] && LastResult(env, EMPTY, ds).Success?
            else |IngestAll(env, EMPTY, ds).conflicts| == 1 && Rejected(env, EMPTY, ds) == 1
                 && LastResult(env, EMPTY, ds) == Failure(ConflictingContent)
  {
    hide EventIdOf, SemanticDigest;
    var ds := [Delivery(a, now), Delivery(b, now)];
    assert ds[..1] == [Delivery(a, now)] && ds[..1][..0] == [];
    assert IngestAll(env, EMPTY, ds[..1]) == IngestStep(env, EMPTY, a, now).0;
    assert LastResult(env, EMPTY, ds[..1]).Success?;
    assert Rejected(env, EMPTY, ds[..1]) == 0;
  }

  ghost predicate ConflictFree(env: Env, pool: seq<AuditRecord>) {
    forall ds: seq<Delivery> :: DrawnFrom(ds, pool) ==> IngestAll(env, EMPTY, ds).conflicts == []
  }

  /** No sequence of deliveries from the pool conflicts exactly when acceptable records of one identifier have one
      digest; then counts are accepted deliveries. */
  lemma PoolConflictFreeIff(env: Env, pool: seq<AuditRecord>)
    ensures ConflictFree(env, pool) <==> OneDigest(env, pool)
  {
    hide Acceptable, EventIdOf, SemanticDigest, IngestAll, LastResult, Agreeing, PoolMeaning, Rejected;
    if OneDigest(env, pool) {
      forall ds: seq<Delivery> | DrawnFrom(ds, pool) ensures IngestAll(env, EMPTY, ds).conflicts == [] {
        PoolAgrees(env, pool, ds);
        AgreeingNeverConflict(env, ds, PoolMeaning(env, pool));
      }
    } else {
      var a, b :| a in pool && b in pool && Acceptable(env, a) && Acceptable(env, b) && EventIdOf(a) == EventIdOf(b)
                  && SemanticDigest(env, a) != SemanticDigest(env, b);
      DeliverPair(env, a, b, "");
      assert DrawnFrom([Delivery(a, ""), Delivery(b, "")], pool);
    }
  }

  // ----- complete ingestion -----

  ghost predicate AllAccepted(env: Env, pool: seq<AuditRecord>) {
    forall ds: seq<Delivery> :: ds != [] && DrawnFrom(ds, pool) ==> LastResult(env, EMPTY, ds).Success?
  }

  ghost predicate AllAcceptable(env: Env, pool: seq<AuditRecord>) {
    forall a :: a in pool ==> Acceptable(env, a)
  }

  /** A pool that fits is stored once per identifier, with the number of its deliveries. */
  lemma PoolIngestsCompletely(env: Env, pool: seq<AuditRecord>, ds: seq<Delivery>)
    requires AllAcceptable(env, pool) && OneDigest(env, pool) && |PoolIds(env, pool)| <= MAX_EVENTS
             && DrawnFrom(ds, pool)
    ensures Mirrors(IngestAll(env, EMPTY, ds), ds, PoolMeaning(env, pool))
    ensures ds != [] ==> LastResult(env, EMPTY, ds).Success?
  {
    hide Acceptable, OneDigest, PoolIds, Means, PoolMeaning, Mirrors, IngestAll, LastResult;
    forall i | 0 <= i < |ds| ensures Means(env, ds[i].record, PoolMeaning(env, pool)) {
      MeaningOfRecord(env, pool, ds[i].record);
    }
    AtLeastOnceIngest(env, ds, PoolMeaning(env, pool));
  }

  lemma AcceptedIsAcceptable(env: Env, store: Store, record: AuditRecord, now: string)
    requires IngestStep(env, store, record, now).1.Success?
    ensures Acceptable(env, record)
    ensures EventIdOf(record).value in IngestStep(env, store, record, now).0.events
  {
    hide EventIdOf, SemanticDigest;
  }

  lemma {:induction false} AcceptedAreStored(env: Env, pool: seq<AuditRecord>, ds: seq<Delivery>, i: nat)
    requires env.Faithful() && AllAccepted(env, pool) && DrawnFrom(ds, pool) && i < |ds|
    ensures EventIdOf(ds[i].record).Success? && EventIdOf(ds[i].record).value in IngestAll(env, EMPTY, ds).events
    decreases |ds|
  {
    hide EventIdOf, IngestStep, RowHealthy;
    var n := |ds| - 1;
    var init, last := ds[..n], ds[n];
    assert LastResult(env, EMPTY, ds).Success?;
    AcceptedIsAcceptable(env, IngestAll(env, EMPTY, init), last.record, last.now);
    if i == n {
    } else {
      AcceptedAreStored(env, pool, init, i);
      RunAccounting(env, init, "");
      IngestKeepsHealthy(env, IngestAll(env, EMPTY, init), last.record, last.now);
    }
  }

  function Whole(pool: seq<AuditRecord>): (ds: seq<Delivery>)
    ensures |ds| == |pool|
  {
    seq(|pool|, (i: nat) requires i < |pool| => Delivery(pool[i], ""))
  }

  lemma AcceptedWithinCapacity(env: Env, pool: seq<AuditRecord>)
    requires env.Faithful() && AllAccepted(env, pool)
    ensures |PoolIds(env, pool)| <= MAX_EVENTS
  {
    hide EventIdOf, IngestAll, AllAccepted, RowHealthy, SemanticDigest;
    var ds := Whole(pool);
    var events := IngestAll(env, EMPTY, ds).events;
    forall id | id in PoolIds(env, pool) ensures id in events {
      var a :| a in pool && Acceptable(env, a) && EventIdOf(a).value == id;
      var i :| 0 <= i < |pool| && pool[i] == a;
      assert ds[i].record == a;
      AcceptedAreStored(env, pool, ds, i);
    }
    RunAccounting(env, ds, "");
    SubsetSize(PoolIds(env, pool), events.Keys);
    assert |events.Keys| == |events|;
  }

  lemma OnlyDelivery(env: Env, a: AuditRecord)
    ensures LastResult(env, EMPTY, [Delivery(a, "")]) == IngestStep(env, EMPTY, a, "").1
  {
    hide IngestStep;
    assert [Delivery(a, "")][..0] == [];
  }

  /** Every delivery from the pool is accepted exactly when each record is acceptable on its own, records of one
      identifier have one digest, and the identifiers fit the capacity. */
  lemma PoolIngestsCompletelyIff(env: Env, pool: seq<AuditRecord>)
    requires env.Faithful()
    ensures AllAccepted(env, pool) <==>
            AllAcceptable(env, pool) && OneDigest(env, pool) && |PoolIds(env, pool)| <= MAX_EVENTS
  {
    hide Acceptable, EventIdOf, SemanticDigest, IngestAll, IngestStep, LastResult, PoolIds, Rejected, Env.Faithful;
    if AllAccepted(env, pool) {
      AcceptedWithinCapacity(env, pool);
      forall a | a in pool ensures Acceptable(env, a) {
        assert DrawnFrom([Delivery(a, "")], pool);
        OnlyDelivery(env, a);
        AcceptedIsAcceptable(env, EMPTY, a, "");
      }
      forall a, b | a in pool && b in pool && Acceptable(env, a) && Acceptable(env, b) && EventIdOf(a) == EventIdOf(b)
        ensures SemanticDigest(env, a) == SemanticDigest(env, b)
      {
        assert DrawnFrom([Delivery(a, ""), Delivery(b, "")], pool);
        DeliverPair(env, a, b, "");
      }
    } else {
      var ds: seq<Delivery> :| ds != [] && DrawnFrom(ds, pool) && !LastResult(env, EMPTY, ds).Success?;
      if AllAcceptable(env, pool) && OneDigest(env, pool) && |PoolIds(env, pool)| <= MAX_EVENTS {
        PoolIngestsCompletely(env, pool, ds);
      }
    }
  }
}
