/** A run that reuses an identifier: after sixteen deliveries one is evicted, its identifier is accepted again with
    other content, and the log then holds two records the event store cannot both take. */
module OutboxReuse {
  import opened EchoPool
  import opened EchoStore
  import opened JsonDocuments
  import opened Merkle
  import opened Outbox
  import opened OutboxEcho
  import opened Sorting
  import opened Text
  import opened Wrappers

  // ----- sixteen cycles of queueing and delivering -----

  function CycleId(i: nat): string {
    "SARA-EVENT-" + Decimal(i)
  }

  function CycleRequest(i: nat, t: string): Request {
    Request("event", "actor", map[], None, Decimal(i), t)
  }

  function Queued(i: nat, t: string): Record {
    Record(CycleId(i), NewEntry(CycleId(i), CycleRequest(i, t)))
  }

  function Done(i: nat, t: string): Record {
    Record(CycleId(i), Mark(Queued(i, t).entry, t))
  }

  function DoneAll(n: nat, t: string): (r: seq<Record>)
    ensures |r| == n
  {
    seq(n, (i: nat) => Done(i, t))
  }

  function CycleAudits(n: nat, t: string): (r: seq<AuditRecord>)
    ensures |r| == n
  {
    seq(n, (i: nat) => AuditOf(Queued(i, t), t))
  }

  function Cycles(n: nat, t: string): seq<Op> {
    if n == 0 then [] else
      Cycles(n - 1, t) + [OutboxEcho.Queue([CycleRequest(n - 1, t)]), DeliverOne(Stamps(t, t))]
  }

  ghost predicate Stamp(ok: string -> bool, t: string) {
    t != "" && ok(t)
  }

  lemma CycleIdInjective(i: nat, j: nat)
    requires CycleId(i) == CycleId(j)
    ensures i == j
  {
    assert CycleId(i)[11..] == Decimal(i) && CycleId(j)[11..] == Decimal(j);
    DecimalValue(i);
    DecimalValue(j);
  }

  lemma CycleStableId(i: nat, t: string)
    ensures StableId(CycleRequest(i, t)) == CycleId(i) && CycleId(i) != ""
  {
  }

  lemma QueuedForm(ok: string -> bool, i: nat, t: string)
    requires Stamp(ok, t)
    ensures EntryValid(ok, Queued(i, t)) && IsPending(Queued(i, t)) && !IsDelivered(Queued(i, t))
    ensures EntryValid(ok, Done(i, t)) && IsDelivered(Done(i, t)) && !IsPending(Done(i, t))
  {
    hide CycleId, EntryValid;
    CycleStableId(i, t);
    NewEntryValid(ok, CycleId(i), CycleRequest(i, t));
    StatusesDiffer(Queued(i, t));
    MarkedEntry(ok, Queued(i, t), t);
    MarkedNotPending(CycleId(i), Queued(i, t).entry, t);
    assert IsDelivered(Done(i, t));
  }

  lemma FilterNone(records: seq<Record>, keep: Record -> bool)
    requires forall r :: r in records ==> !keep(r)
    ensures Filter(records, keep) == []
  {
    FilterElements(records, keep);
    if Filter(records, keep) != [] {
      assert Filter(records, keep)[0] in Filter(records, keep);
    }
  }

  lemma {:induction false} FilterAll(records: seq<Record>, keep: Record -> bool)
    requires forall r :: r in records ==> keep(r)
    ensures Filter(records, keep) == records
    decreases |records|
  {
    if records == [] {
    } else {
      var n := |records| - 1;
      assert records == records[..n] + [records[n]] && records[n] in records;
      assert forall r :: r in records[..n] ==> r in records;
      FilterAll(records[..n], keep);
    }
  }

  lemma DoneAllForm(ok: string -> bool, n: nat, t: string)
    requires Stamp(ok, t) && n <= MAX_DELIVERED
    ensures var records := DoneAll(n, t);
            && WithinLimits(ok, records) && Pending(records) == [] && Delivered(records) == records
            && Ids(records) == set i | 0 <= i < n :: CycleId(i)
  {
    hide EntryValid, IsPending, IsDelivered, CycleId, Filter, Done;
    var records := DoneAll(n, t);
    forall i | 0 <= i < n
      ensures EntryValid(ok, records[i]) && IsDelivered(records[i]) && !IsPending(records[i])
              && records[i].id == CycleId(i)
    {
      QueuedForm(ok, i, t);
      DoneId(i, t);
    }
    forall i, j | 0 <= i < j < n ensures records[i].id != records[j].id {
      if CycleId(i) == CycleId(j) {
        CycleIdInjective(i, j);
      }
    }
    FilterNone(records, IsPending);
    FilterAll(records, IsDelivered);
  }

  lemma DoneId(i: nat, t: string)
    ensures Done(i, t).id == CycleId(i)
  {
  }

  /** Below the retention limit nothing is evicted. */
  lemma NothingEvicted(records: seq<Record>)
    requires Unique(records) && |Delivered(records)| < MAX_DELIVERED
    ensures Evict(records) == records
  {
    hide Filter, Oldest;
    OldestLength(records);
    assert Oldest(records)[..0] == [];
    FilterAll(records, (r: Record) => r.id !in Evicted(records));
  }

  lemma QueueCycle(ok: string -> bool, n: nat, t: string)
    requires Stamp(ok, t) && n < MAX_DELIVERED
    ensures QueueStep(ok, DoneAll(n, t), CycleRequest(n, t)) == Success((DoneAll(n, t) + [Queued(n, t)], CycleId(n)))
  {
    hide EntryValid, IsPending, IsDelivered, CycleId, Filter, Evict, DoneAll, NewEntry, StableId;
    DoneAllForm(ok, n, t);
    LimitsUnique(ok, DoneAll(n, t));
    NothingEvicted(DoneAll(n, t));
    CycleStableId(n, t);
    if CycleId(n) in Ids(DoneAll(n, t)) {
      var i :| 0 <= i < n && CycleId(i) == CycleId(n);
      CycleIdInjective(i, n);
    }
  }

  lemma QueueOne(ok: string -> bool, records: seq<Record>, request: Request)
    requires QueueStep(ok, records, request).Success?
    ensures var (next, id) := QueueStep(ok, records, request).value;
            QueueAll(ok, records, [request]) == Success((next, [id]))
  {
    hide QueueStep;
    assert [request][..0] == [];
    assert QueueAll(ok, records, [request][..0]) == Success((records, []));
    var ids: seq<string> := [];
    assert ids + [QueueStep(ok, records, request).value.1] == [QueueStep(ok, records, request).value.1];
  }

  lemma DeliverCycle(ok: string -> bool, n: nat, t: string, audit: seq<AuditRecord>)
    requires Stamp(ok, t) && n < MAX_DELIVERED
    ensures Deliver(World(DoneAll(n, t) + [Queued(n, t)], audit), Stamps(t, t)) ==
            World(DoneAll(n + 1, t), audit + [AuditOf(Queued(n, t), t)])
  {
    hide EntryValid, IsPending, IsDelivered, CycleId, Filter, AuditOf, CreatedBefore, NewEntry, Mark;
    var done, last := DoneAll(n, t), Queued(n, t);
    DoneAllForm(ok, n, t);
    QueuedForm(ok, n, t);
    FilterAppend(done, last, IsPending);
    assert [last][1..] == [] && Sort(CreatedBefore, [last][1..]) == [];
    assert Sort(CreatedBefore, [last]) == [last];
    assert Pending(done + [last]) == [last];
    assert PendingOrder(done + [last]) == [last];
    var marked := MarkDelivered(done + [last], last.id, t);
    forall i | 0 <= i < n + 1 ensures marked[i] == Done(i, t) {
      if i < n && CycleId(i) == CycleId(n) {
        CycleIdInjective(i, n);
      }
    }
    assert marked == DoneAll(n + 1, t);
  }

  lemma RunAppend(ok: string -> bool, ops: seq<Op>, op: Op)
    ensures Run(ok, ops + [op]) == Step(ok, Run(ok, ops), op)
  {
    hide Step;
    assert (ops + [op])[..|ops|] == ops;
  }

  lemma {:induction false} CyclesState(ok: string -> bool, n: nat, t: string)
    requires Stamp(ok, t) && n <= MAX_DELIVERED
    ensures Run(ok, Cycles(n, t)).world == World(DoneAll(n, t), CycleAudits(n, t))
  {
    hide DoneAll, QueueStep, QueueAll, Deliver, AuditOf, Queued, CycleRequest, CycleAudits, RequestUses;
    if n == 0 {
      assert DoneAll(0, t) == [] && CycleAudits(0, t) == [];
    } else {
      CyclesState(ok, n - 1, t);
      var before := Cycles(n - 1, t);
      var queue, deliver := OutboxEcho.Queue([CycleRequest(n - 1, t)]), DeliverOne(Stamps(t, t));
      RunAppend(ok, before, queue);
      RunAppend(ok, before + [queue], deliver);
      assert Cycles(n, t) == before + [queue] + [deliver];
      QueueCycle(ok, n - 1, t);
      QueueOne(ok, DoneAll(n - 1, t), CycleRequest(n - 1, t));
      DeliverCycle(ok, n - 1, t, CycleAudits(n - 1, t));
      NextAudit(n - 1, t);
    }
  }

  lemma NextAudit(n: nat, t: string)
    ensures CycleAudits(n + 1, t) == CycleAudits(n, t) + [AuditOf(Queued(n, t), t)]
  {
    hide AuditOf, Queued;
  }

  // ----- the identifier is evicted and used again -----

  function Reuse(id: string, t: string): Request {
    Request("other", "actor", map[], Some(id), "", t)
  }

  function Reused(id: string, t: string): Record {
    Record(id, NewEntry(id, Reuse(id, t)))
  }

  /** Records of the outbox after the sixteen deliveries and one more queued event. */
  function Refilled(t: string): seq<Record> {
    Evict(DoneAll(MAX_DELIVERED, t)) + [Queued(MAX_DELIVERED, t)]
  }

  lemma RefillStep(ok: string -> bool, t: string)
    requires Stamp(ok, t)
    ensures QueueStep(ok, DoneAll(MAX_DELIVERED, t), CycleRequest(MAX_DELIVERED, t)) ==
            Success((Refilled(t), CycleId(MAX_DELIVERED)))
    ensures WithinLimits(ok, Refilled(t)) && Pending(Refilled(t)) == [Queued(MAX_DELIVERED, t)]
  {
    hide EntryValid, IsPending, IsDelivered, CycleId, Filter, Evict, DoneAll, NewEntry, StableId;
    var n := MAX_DELIVERED;
    DoneAllForm(ok, n, t);
    LimitsUnique(ok, DoneAll(n, t));
    CycleStableId(n, t);
    if CycleId(n) in Ids(DoneAll(n, t)) {
      var i :| 0 <= i < n && CycleId(i) == CycleId(n);
      CycleIdInjective(i, n);
    }
    QueueKeepsLimits(ok, DoneAll(n, t), CycleRequest(n, t));
  }

  /** One of the sixteen identifiers is gone. */
  lemma SomeEvicted(ok: string -> bool, t: string) returns (j: nat)
    requires Stamp(ok, t)
    ensures j < MAX_DELIVERED && CycleId(j) !in Ids(Refilled(t))
  {
    hide EntryValid, IsPending, IsDelivered, CycleId, Filter, DoneAll, Oldest, Evicted;
    var records := DoneAll(MAX_DELIVERED, t);
    DoneAllForm(ok, MAX_DELIVERED, t);
    LimitsUnique(ok, records);
    EvictedCount(records);
    assert Evicted(records) != {};
    var id :| id in Evicted(records);
    assert id in Ids(records);
    j :| 0 <= j < MAX_DELIVERED && CycleId(j) == id;
    FilterElements(records, (r: Record) => r.id !in Evicted(records));
    var refilled, kept := Refilled(t), |Evict(records)|;
    forall k | 0 <= k < |refilled| ensures refilled[k].id != id {
      if k < kept {
        assert refilled[k] in Evict(records);
      } else if CycleId(j) == CycleId(MAX_DELIVERED) {
        CycleIdInjective(j, MAX_DELIVERED);
      }
    }
  }

  lemma ReuseStep(ok: string -> bool, t: string, id: string)
    requires Stamp(ok, t) && id != "" && id !in Ids(Refilled(t))
    ensures QueueStep(ok, Refilled(t), Reuse(id, t)).Success?
    ensures var next := QueueStep(ok, Refilled(t), Reuse(id, t)).value.0;
            WithinLimits(ok, next) && Pending(next) == [Queued(MAX_DELIVERED, t), Reused(id, t)]
  {
    hide EntryValid, IsPending, IsDelivered, Filter, Evict, Refilled, NewEntry;
    RefillStep(ok, t);
    LimitsUnique(ok, Refilled(t));
    QueueKeepsLimits(ok, Refilled(t), Reuse(id, t));
  }

  function ReuseOps(j: nat, t: string): seq<Op> {
    Cycles(MAX_DELIVERED, t) + [OutboxEcho.Queue([CycleRequest(MAX_DELIVERED, t)])]
    + [OutboxEcho.Queue([Reuse(CycleId(j), t)])] + [DeliverOne(Stamps(t, t))] + [DeliverOne(Stamps(t, t))]
  }

  /** Two deliveries empty the two pending entries into the log. */
  lemma BothDelivered(ok: string -> bool, w: World, t: string, r: Record)
    requires Stamp(ok, t) && WithinLimits(ok, w.records) && |Pending(w.records)| == 2 && r in Pending(w.records)
    ensures var end := Deliver(Deliver(w, Stamps(t, t)), Stamps(t, t));
            AuditOf(r, t) in end.audit && forall a :: a in w.audit ==> a in end.audit
  {
    hide IsPending, AuditOf, MarkDelivered, Filter, PendingOrder, EntryValid;
    var clock := (k: nat) => Stamps(t, t);
    LimitsUnique(ok, w.records);
    OrderContents(w.records);
    var order := PendingOrder(w.records);
    DrainedInOrder(ok, w, clock, 2);
    assert Drained(w, clock, 1) == Deliver(w, Stamps(t, t));
    assert Drained(w, clock, 2) == Deliver(Deliver(w, Stamps(t, t)), Stamps(t, t));
    assert order[..2] == order;
    FilterElements(w.records, IsPending);
    assert r in order;
    var i :| 0 <= i < 2 && order[i] == r;
    assert Audits(order, clock)[i] == AuditOf(r, t);
  }

  lemma ReuseState(ok: string -> bool, t: string, j: nat)
    requires Stamp(ok, t) && j < MAX_DELIVERED && CycleId(j) !in Ids(Refilled(t))
    ensures var audit := Run(ok, ReuseOps(j, t)).world.audit;
            AuditOf(Queued(j, t), t) in audit && AuditOf(Reused(CycleId(j), t), t) in audit
  {
    hide DoneAll, QueueStep, Deliver, AuditOf, Queued, CycleRequest, Refilled, Reused, CycleId, WithinLimits;
    hide Reuse, Pending, Cycles, NewEntry;
    var n, ops := MAX_DELIVERED, Cycles(MAX_DELIVERED, t);
    CyclesState(ok, n, t);
    assert CycleAudits(n, t)[j] == AuditOf(Queued(j, t), t);
    var q0, q1 := OutboxEcho.Queue([CycleRequest(n, t)]), OutboxEcho.Queue([Reuse(CycleId(j), t)]);
    var d := DeliverOne(Stamps(t, t));
    RunAppend(ok, ops, q0);
    RunAppend(ok, ops + [q0], q1);
    RunAppend(ok, ops + [q0] + [q1], d);
    RunAppend(ok, ops + [q0] + [q1] + [d], d);
    RefillStep(ok, t);
    QueueOne(ok, DoneAll(n, t), CycleRequest(n, t));
    CycleStableId(j, t);
    ReuseStep(ok, t, CycleId(j));
    QueueOne(ok, Refilled(t), Reuse(CycleId(j), t));
    var w := Run(ok, ops + [q0] + [q1]).world;
    assert w.audit == CycleAudits(n, t) && Pending(w.records) == [Queued(n, t), Reused(CycleId(j), t)];
    BothDelivered(ok, w, t, Reused(CycleId(j), t));
  }

  lemma CycleIdFits(j: nat)
    requires j < MAX_DELIVERED
    ensures IsEventId(CycleId(j))
  {
    DecimalDigits(j);
    assert j >= 10 ==> Decimal(j) == Decimal(j / 10) + [Digit(j % 10)] && j / 10 == 1;
    assert |Decimal(j)| <= 2;
    var s := CycleId(j);
    assert s[..11] == IdPrefix() && s[11..] == Decimal(j);
  }

  lemma DocumentsDiffer(a: AuditRecord, b: AuditRecord)
    requires a.event != b.event
    ensures SemanticDocument(a) != SemanticDocument(b)
  {
    assert SemanticDocument(a).fields[Event] == JStr(a.event) && SemanticDocument(b).fields[Event] == JStr(b.event);
  }

  /** The condition on contents is reached: this run of the outbox logs two uses of one identifier that both fit the
      store, and the store refuses the second of their records. */
  lemma ReusedIdentifierConflicts(ok: string -> bool, env: Env, t: string, now: string)
      returns (ops: seq<Op>, a: AuditRecord, b: AuditRecord)
    requires Stamp(ok, t) && env.validTime(t) && env.Faithful()
    ensures TimedRun(ok, ops) && !OneContent(StorableUses(env, Run(ok, ops).world.audit))
    ensures a in Run(ok, ops).world.audit && b in Run(ok, ops).world.audit && IdOf(a) == IdOf(b)
    ensures Acceptable(env, a) && Acceptable(env, b) && SemanticDocument(a) != SemanticDocument(b)
    ensures CollisionFree(env.sha, {env.dump(SemanticDocument(a)), env.dump(SemanticDocument(b))}) ==>
              Rejected(env, EMPTY, [Delivery(a, now), Delivery(b, now)]) == 1
  {
    var j := SomeEvicted(ok, t);
    ops := ReuseOps(j, t);
    a, b := AuditOf(Queued(j, t), t), AuditOf(Reused(CycleId(j), t), t);
    ReuseState(ok, t, j);
    ReuseTimed(ok, j, t);
    CycleIdFits(j);
    ReuseRecords(env, j, t);
    hide Queued, Reused, Run, SemanticDocument, IsEventId, CycleId, Acceptable, IdOf, AuditOf, ReuseOps, Rejected,
         TimedRun;
    assert LogUse(a) in StorableUses(env, Run(ok, ops).world.audit);
    assert LogUse(b) in StorableUses(env, Run(ok, ops).world.audit);
    if CollisionFree(env.sha, {env.dump(SemanticDocument(a)), env.dump(SemanticDocument(b))}) {
      MeaningsConflict(env, a, b, now);
    }
  }

  lemma ReuseTimed(ok: string -> bool, j: nat, t: string)
    requires Stamp(ok, t)
    ensures TimedRun(ok, ReuseOps(j, t))
  {
    CyclesTimed(ok, MAX_DELIVERED, t);
    hide Cycles, CycleId;
  }

  lemma {:induction false} CyclesTimed(ok: string -> bool, n: nat, t: string)
    requires Stamp(ok, t)
    ensures TimedRun(ok, Cycles(n, t))
  {
    if n == 0 {
    } else {
      CyclesTimed(ok, n - 1, t);
    }
  }

  lemma ReuseRecords(env: Env, j: nat, t: string)
    requires env.validTime(t) && IsEventId(CycleId(j))
    ensures var (a, b) := (AuditOf(Queued(j, t), t), AuditOf(Reused(CycleId(j), t), t));
            && Acceptable(env, a) && Acceptable(env, b) && IdOf(a) == IdOf(b) && EventIdOf(a) == EventIdOf(b)
            && LogUse(a) != LogUse(b) && SemanticDocument(a) != SemanticDocument(b)
  {
    hide IsEventId, CycleId, SemanticDocument, Acceptable, NewEntry, StableId, EventIdOf;
    var id := CycleId(j);
    CycleStableId(j, t);
    ReuseStableId(id, t);
    AuditIsStamped(Queued(j, t), t);
    AuditIsStamped(Reused(id, t), t);
    NewEntryUse(CycleRequest(j, t));
    NewEntryUse(Reuse(id, t));
    StampedAcceptableIff(env, RequestUse(CycleRequest(j, t)), t);
    StampedAcceptableIff(env, RequestUse(Reuse(id, t)), t);
    var a, b := AuditOf(Queued(j, t), t), AuditOf(Reused(id, t), t);
    assert |a.event| == 5 && b.event == "other" && a.event == "event" && a.event[0] != b.event[0];
    DocumentsDiffer(a, b);
  }

  lemma ReuseStableId(id: string, t: string)
    requires id != ""
    ensures StableId(Reuse(id, t)) == id
  {
  }

  lemma MeaningsConflict(env: Env, a: AuditRecord, b: AuditRecord, now: string)
    requires env.Faithful() && Acceptable(env, a) && Acceptable(env, b) && EventIdOf(a) == EventIdOf(b)
    requires SemanticDocument(a) != SemanticDocument(b)
    requires CollisionFree(env.sha, {env.dump(SemanticDocument(a)), env.dump(SemanticDocument(b))})
    ensures Rejected(env, EMPTY, [Delivery(a, now), Delivery(b, now)]) == 1
  {
    hide EventIdOf, Rejected, SemanticDigest;
    DigestIgnoresTimestampOnly(env, a, b);
    DeliverPair(env, a, b, now);
  }
}
