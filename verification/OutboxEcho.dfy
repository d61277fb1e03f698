/** The outbox, its crash window and the event store composed: at-least-once delivery into an idempotent consumer. */
module OutboxEcho {
  import opened EchoPool
  import opened EchoStore
  import opened JsonDocuments
  import opened Merkle
  import opened Outbox
  import opened Wrappers

  datatype Content = Content(event: string, actor: string, payload: map<Field, Json>)

  /** A content queued under an identifier. */
  datatype Use = Use(id: string, content: Content)

  /** The outbox and its log, with every use that was ever queued. */
  datatype System = System(world: World, uses: set<Use>)

  datatype Op = Queue(requests: seq<Request>) | DeliverOne(stamps: Stamps) | CrashAfterAppend(stamps: Stamps)

  function RequestUse(request: Request): Use {
    Use(StableId(request), Content(request.event, request.actor, request.payload))
  }

  function RecordUse(r: Record): Use {
    var fields := FieldsOf(r.entry);
    Use(r.id, Content(TextOf(Get(fields, Event)), TextOf(Get(fields, Actor)), FieldsOf(Get(fields, Payload))))
  }

  function IdOf(a: AuditRecord): string {
    TextOf(Get(a.payload, OutboxEventId))
  }

  /** The use an audit record tells of: what it says, without the two keys that delivery adds. */
  function LogUse(a: AuditRecord): Use {
    Use(IdOf(a), Content(a.event, a.actor, a.payload - {OutboxEventId, DeliverySemantics}))
  }

  /** The audit record a delivery of this use appends. */
  function Stamped(u: Use, timestamp: string): AuditRecord {
    AuditRecord(timestamp, u.content.event, u.content.actor,
                u.content.payload[OutboxEventId := JStr(u.id)][DeliverySemantics := JStr("AT_LEAST_ONCE")])
  }

  function RequestUses(requests: seq<Request>): set<Use> {
    set k | 0 <= k < |requests| :: RequestUse(requests[k])
  }

  function Step(ok: string -> bool, sys: System, op: Op): System {
    match op
    case Queue(requests) =>
      var r := QueueAll(ok, sys.world.records, requests);
      if r.Failure? then sys
      else System(sys.world.(records := r.value.0), sys.uses + RequestUses(requests))
    case DeliverOne(stamps) => sys.(world := Deliver(sys.world, stamps))
    case CrashAfterAppend(stamps) => sys.(world := Crash(sys.world, stamps))
  }

  const START := System(World([], []), {})

  function Run(ok: string -> bool, ops: seq<Op>): System {
    if ops == [] then START else Step(ok, Run(ok, ops[..|ops| - 1]), ops[|ops| - 1])
  }

  ghost predicate RequestsTimed(ok: string -> bool, requests: seq<Request>) {
    forall k :: 0 <= k < |requests| ==> requests[k].now != "" && ok(requests[k].now)
  }

  ghost predicate Timed(ok: string -> bool, op: Op) {
    match op
    case Queue(requests) => RequestsTimed(ok, requests)
    case DeliverOne(stamps) => stamps.marked != "" && ok(stamps.marked)
    case CrashAfterAppend(_) => true
  }

  /** The clock gives valid timestamps; nothing is asked of identifiers or contents. */
  ghost predicate TimedRun(ok: string -> bool, ops: seq<Op>) {
    forall k :: 0 <= k < |ops| ==> Timed(ok, ops[k])
  }

  // ----- what every run keeps -----

  function PendingUses(records: seq<Record>): set<Use> {
    set r | r in PendingOrder(records) :: RecordUse(r)
  }

  function LoggedUses(audit: seq<AuditRecord>): set<Use> {
    set a | a in audit :: LogUse(a)
  }

  ghost predicate DeliveredAreLogged(w: World) {
    forall r :: r in w.records && IsDelivered(r) ==> RecordUse(r) in LoggedUses(w.audit)
  }

  /** Each audit record is exactly what a delivery of the use it tells of appends. */
  ghost predicate LogIsStamped(audit: seq<AuditRecord>) {
    forall a :: a in audit ==> a == Stamped(LogUse(a), a.timestamp)
  }

  ghost predicate Invariant(ok: string -> bool, sys: System) {
    && WithinLimits(ok, sys.world.records)
    && sys.uses == PendingUses(sys.world.records) + LoggedUses(sys.world.audit)
    && DeliveredAreLogged(sys.world)
    && LogIsStamped(sys.world.audit)
  }

  /** A stamped use tells of that use again, as the reserved keys cannot be queued. */
  lemma StampedTellsUse(u: Use, stamp: string)
    requires NoReservedKeys(u.content.payload)
    ensures LogUse(Stamped(u, stamp)) == u
  {
    var p := u.content.payload;
    assert p[OutboxEventId := JStr(u.id)][DeliverySemantics := JStr("AT_LEAST_ONCE")]
           - {OutboxEventId, DeliverySemantics} == p;
  }

  lemma AuditIsStamped(r: Record, stamp: string)
    ensures AuditOf(r, stamp) == Stamped(RecordUse(r), stamp)
  {
  }

  lemma AuditTellsUse(ok: string -> bool, r: Record, stamp: string)
    requires EntryValid(ok, r)
    ensures LogUse(AuditOf(r, stamp)) == RecordUse(r)
    ensures AuditOf(r, stamp) == Stamped(RecordUse(r), AuditOf(r, stamp).timestamp)
  {
    AuditIsStamped(r, stamp);
    StampedTellsUse(RecordUse(r), stamp);
  }

  lemma MarkKeepsUse(r: Record, stamp: string)
    ensures RecordUse(Record(r.id, Mark(r.entry, stamp))) == RecordUse(r)
  {
  }

  lemma NewEntryUse(request: Request)
    ensures RecordUse(Record(StableId(request), NewEntry(StableId(request), request))) == RequestUse(request)
  {
  }

  lemma PendingUseIs(records: seq<Record>, u: Use)
    ensures u in PendingUses(records) <==> exists r :: r in Pending(records) && RecordUse(r) == u
  {
    hide RecordUse, IsPending, PendingOrder, Filter;
    OrderContents(records);
    FilterElements(records, IsPending);
  }

  /** One queued request adds its use to the pending ones and drops none. */
  lemma QueueOneUses(ok: string -> bool, records: seq<Record>, request: Request)
    requires WithinLimits(ok, records) && QueueStep(ok, records, request).Success?
    requires request.now != "" && ok(request.now)
    ensures var next := QueueStep(ok, records, request).value.0;
            WithinLimits(ok, next) && PendingUses(next) == PendingUses(records) + {RequestUse(request)}
  {
    hide NewEntry, RecordUse, RequestUse, QueueStep, PendingUses, WithinLimits, StableId, Pending;
    var (next, id) := QueueStep(ok, records, request).value;
    QueueKeepsLimits(ok, records, request);
    QueuedId(ok, records, request);
    NewEntryUse(request);
    var added := Record(id, NewEntry(id, request));
    forall u ensures u in PendingUses(next) <==> u in PendingUses(records) || u == RequestUse(request) {
      PendingUseIs(records, u);
      PendingUseIs(next, u);
      if u in PendingUses(records) {
        var r :| r in Pending(records) && RecordUse(r) == u;
        assert r in Pending(next);
      }
      assert added in Pending(next);
    }
  }

  lemma QueuedId(ok: string -> bool, records: seq<Record>, request: Request)
    requires QueueStep(ok, records, request).Success?
    ensures QueueStep(ok, records, request).value.1 == StableId(request)
  {
  }

  /** Queueing and eviction bring in no delivered entry. */
  lemma QueueOneDelivered(ok: string -> bool, records: seq<Record>, request: Request, r: Record)
    requires QueueStep(ok, records, request).Success?
    requires r in QueueStep(ok, records, request).value.0 && IsDelivered(r)
    ensures r in records
  {
    hide Filter, AllValid, Evicted, StableId;
    FilterElements(records, (s: Record) => s.id !in Evicted(records));
    StatusesDiffer(Record(StableId(request), NewEntry(StableId(request), request)));
  }

  lemma QueueOneKeeps(ok: string -> bool, sys: System, request: Request)
    requires Invariant(ok, sys) && QueueStep(ok, sys.world.records, request).Success?
    requires request.now != "" && ok(request.now)
    ensures var next := QueueStep(ok, sys.world.records, request).value.0;
            Invariant(ok, System(sys.world.(records := next), sys.uses + {RequestUse(request)}))
  {
    hide WithinLimits, PendingUses, LoggedUses, QueueStep, RequestUse, RecordUse, IsDelivered, LogIsStamped;
    var next := QueueStep(ok, sys.world.records, request).value.0;
    QueueOneUses(ok, sys.world.records, request);
    forall r | r in next && IsDelivered(r) ensures RecordUse(r) in LoggedUses(sys.world.audit) {
      QueueOneDelivered(ok, sys.world.records, request, r);
    }
  }

  lemma {:induction false} QueueAllKeeps(ok: string -> bool, sys: System, requests: seq<Request>)
    requires Invariant(ok, sys) && QueueAll(ok, sys.world.records, requests).Success? && RequestsTimed(ok, requests)
    ensures var next := QueueAll(ok, sys.world.records, requests).value.0;
            Invariant(ok, System(sys.world.(records := next), sys.uses + RequestUses(requests)))
    decreases |requests|
  {
    hide Invariant, QueueStep, RequestUse;
    if requests == [] {
      assert sys.uses + RequestUses(requests) == sys.uses;
      assert System(sys.world.(records := sys.world.records), sys.uses) == sys;
    } else {
      var n := |requests| - 1;
      var init, last := requests[..n], requests[n];
      QueueAllKeeps(ok, sys, init);
      var before := System(sys.world.(records := QueueAll(ok, sys.world.records, init).value.0),
                           sys.uses + RequestUses(init));
      assert last.now != "";
      QueueOneKeeps(ok, before, last);
      UsesOfLast(requests);
      assert sys.uses + RequestUses(requests) == before.uses + {RequestUse(last)};
    }
  }

  lemma UsesOfLast(requests: seq<Request>)
    requires requests != []
    ensures var n := |requests| - 1; RequestUses(requests) == RequestUses(requests[..n]) + {RequestUse(requests[n])}
  {
    hide RequestUse;
    var n := |requests| - 1;
    forall k | 0 <= k < n ensures RequestUse(requests[k]) in RequestUses(requests[..n]) {
      assert requests[..n][k] == requests[k];
    }
  }

  /** Appending the record of the oldest pending entry adds one stamped record that tells of its use. */
  lemma AppendedLog(ok: string -> bool, w: World, stamps: Stamps)
    requires WithinLimits(ok, w.records) && LogIsStamped(w.audit) && PendingOrder(w.records) != []
    ensures var first, audit := PendingOrder(w.records)[0], Deliver(w, stamps).audit;
            && audit == w.audit + [AuditOf(first, stamps.appended)]
            && LoggedUses(audit) == LoggedUses(w.audit) + {RecordUse(first)}
            && RecordUse(first) in PendingUses(w.records)
            && LogIsStamped(audit)
  {
    hide IsPending, EntryValid, AuditOf, RecordUse, LogUse, Stamped, Filter, PendingOrder, MarkDelivered;
    var first := PendingOrder(w.records)[0];
    LimitsUnique(ok, w.records);
    OrderContents(w.records);
    assert first in PendingOrder(w.records);
    AuditTellsUse(ok, first, stamps.appended);
  }

  lemma DeliverKeeps(ok: string -> bool, sys: System, stamps: Stamps)
    requires Invariant(ok, sys) && stamps.marked != "" && ok(stamps.marked)
    ensures Invariant(ok, sys.(world := Deliver(sys.world, stamps)))
  {
    hide WithinLimits, LogIsStamped, LoggedUses, Deliver, RecordUse, PendingOrder;
    var w, order := sys.world, PendingOrder(sys.world.records);
    LimitsUnique(ok, w.records);
    DeliverKeepsLimits(ok, w, stamps);
    DeliverAdvancesOrder(w, stamps);
    if order == [] {
      NothingToDeliver(w, stamps);
    } else {
      AppendedLog(ok, w, stamps);
      assert forall r :: r in order <==> r == order[0] || r in order[1..];
      DeliveredAfter(w, stamps);
    }
  }

  lemma NothingToDeliver(w: World, stamps: Stamps)
    requires PendingOrder(w.records) == []
    ensures Deliver(w, stamps) == w && Crash(w, stamps) == w
  {
  }

  /** The marked entry is the one whose record was just appended. */
  lemma DeliveredAfter(w: World, stamps: Stamps)
    requires DeliveredAreLogged(w) && PendingOrder(w.records) != [] && Unique(w.records)
    requires LoggedUses(Deliver(w, stamps).audit) == LoggedUses(w.audit) + {RecordUse(PendingOrder(w.records)[0])}
    ensures DeliveredAreLogged(Deliver(w, stamps))
  {
    hide LoggedUses, AuditOf, RecordUse, PendingOrder, IsDelivered, Mark, IsPending;
    var first, next := PendingOrder(w.records)[0], Deliver(w, stamps);
    OrderContents(w.records);
    assert first in w.records;
    forall i | 0 <= i < |next.records| && IsDelivered(next.records[i])
      ensures RecordUse(next.records[i]) in LoggedUses(next.audit)
    {
      var r := w.records[i];
      assert r in w.records;
      if r.id == first.id {
        SameIdSameRecord(w.records, r, first);
        MarkKeepsUse(r, stamps.marked);
      }
    }
  }

  /** The crash window: a record was appended, and the event is still pending. */
  lemma CrashKeeps(ok: string -> bool, sys: System, stamps: Stamps)
    requires Invariant(ok, sys)
    ensures Invariant(ok, sys.(world := Crash(sys.world, stamps)))
  {
    hide WithinLimits, LogIsStamped, LoggedUses, Deliver, RecordUse, PendingOrder, PendingUses, IsDelivered;
    if PendingOrder(sys.world.records) == [] {
      NothingToDeliver(sys.world, stamps);
    } else {
      AppendedLog(ok, sys.world, stamps);
    }
  }

  lemma {:induction false} RunKeeps(ok: string -> bool, ops: seq<Op>)
    requires TimedRun(ok, ops)
    ensures Invariant(ok, Run(ok, ops))
    decreases |ops|
  {
    hide Invariant, QueueAll, Deliver, Crash, RequestUses, RequestsTimed;
    if ops == [] {
      StartInvariant(ok);
    } else {
      var init, op := ops[..|ops| - 1], ops[|ops| - 1];
      RunKeeps(ok, init);
      assert Timed(ok, op);
      var sys := Run(ok, init);
      match op {
        case Queue(requests) =>
          if QueueAll(ok, sys.world.records, requests).Success? {
            QueueAllKeeps(ok, sys, requests);
          }
        case DeliverOne(stamps) => DeliverKeeps(ok, sys, stamps);
        case CrashAfterAppend(stamps) => CrashKeeps(ok, sys, stamps);
      }
    }
  }

  lemma StartInvariant(ok: string -> bool)
    ensures Invariant(ok, START)
  {
    assert Pending([]) == [] && PendingOrder([]) == [];
  }

  // ----- no loss -----

  /** After any run the outbox is within its limits, and what was ever queued is exactly what is pending or logged:
      no use is lost and none is invented, however often the process crashed between append and commit and whether or
      not identifiers are used again. Each delivered entry has an audit record of its content. */
  lemma NoEventLost(ok: string -> bool, ops: seq<Op>)
    requires TimedRun(ok, ops)
    ensures var sys := Run(ok, ops);
            && WithinLimits(ok, sys.world.records)
            && sys.uses == PendingUses(sys.world.records) + LoggedUses(sys.world.audit)
            && DeliveredAreLogged(sys.world)
            && LogIsStamped(sys.world.audit)
  {
    hide WithinLimits, PendingUses, LoggedUses, DeliveredAreLogged, LogIsStamped;
    RunKeeps(ok, ops);
  }

  lemma {:induction false} UsesGrow(ok: string -> bool, ops: seq<Op>, k: nat)
    requires k <= |ops|
    ensures Run(ok, ops[..k]).uses <= Run(ok, ops).uses
    decreases |ops|
  {
    hide QueueAll, Deliver, Crash, RequestUses;
    if k == |ops| {
      assert ops[..k] == ops;
    } else {
      var n := |ops| - 1;
      UsesGrow(ok, ops[..n], k);
      assert ops[..n][..k] == ops[..k];
    }
  }

  /** Each request that was queued is, at the end of the run, pending or logged with the content it was queued with. */
  lemma QueuedIsKept(ok: string -> bool, ops: seq<Op>, k: nat, j: nat)
    requires TimedRun(ok, ops) && k < |ops| && ops[k].Queue? && j < |ops[k].requests|
    requires QueueAll(ok, Run(ok, ops[..k]).world.records, ops[k].requests).Success?
    ensures var u, w := RequestUse(ops[k].requests[j]), Run(ok, ops).world;
            u in PendingUses(w.records) || u in LoggedUses(w.audit)
  {
    hide QueueAll, RequestUse, PendingUses, LoggedUses, Invariant;
    assert ops[..k + 1][..k] == ops[..k];
    assert RequestUse(ops[k].requests[j]) in RequestUses(ops[k].requests);
    UsesGrow(ok, ops, k + 1);
    NoEventLost(ok, ops);
  }

  // ----- replays -----

  /** Every identifier is used for one content. */
  ghost predicate OneContent(uses: set<Use>) {
    forall u, v :: u in uses && v in uses && u.id == v.id ==> u == v
  }

  ghost predicate ReplaysAgree(audit: seq<AuditRecord>) {
    forall a, b :: a in audit && b in audit && IdOf(a) == IdOf(b) ==> a.(timestamp := b.timestamp) == b
  }

  /** Records of one identifier differ in nothing but their timestamps exactly when what was logged has one content per
      identifier. */
  lemma ReplaysAgreeIff(ok: string -> bool, ops: seq<Op>)
    requires TimedRun(ok, ops)
    ensures var audit := Run(ok, ops).world.audit; ReplaysAgree(audit) <==> OneContent(LoggedUses(audit))
  {
    NoEventLost(ok, ops);
    StampedReplays(Run(ok, ops).world.audit);
  }

  lemma StampedReplays(audit: seq<AuditRecord>)
    requires LogIsStamped(audit)
    ensures ReplaysAgree(audit) <==> OneContent(LoggedUses(audit))
  {
    if OneContent(LoggedUses(audit)) {
      forall a, b | a in audit && b in audit && IdOf(a) == IdOf(b) ensures a.(timestamp := b.timestamp) == b {
        assert LogUse(a) in LoggedUses(audit) && LogUse(b) in LoggedUses(audit);
        SameUse(a, b);
      }
    }
    if ReplaysAgree(audit) {
      forall u, v | u in LoggedUses(audit) && v in LoggedUses(audit) && u.id == v.id ensures u == v {
        var a :| a in audit && LogUse(a) == u;
        var b :| b in audit && LogUse(b) == v;
        SameUse(a, b);
      }
    }
  }

  /** Stamped records tell of one use exactly when only their timestamps differ. */
  lemma SameUse(a: AuditRecord, b: AuditRecord)
    requires a == Stamped(LogUse(a), a.timestamp) && b == Stamped(LogUse(b), b.timestamp)
    ensures LogUse(a) == LogUse(b) <==> a.(timestamp := b.timestamp) == b
  {
  }

  // ----- what the store accepts -----

  /** The store's format: its identifier pattern and its limits on names. The outbox asks for less. */
  predicate FitsStore(u: Use) {
    IsEventId(u.id) && IsName(u.content.event) && IsName(u.content.actor)
  }

  lemma StampedAcceptableIff(env: Env, u: Use, stamp: string)
    ensures Acceptable(env, Stamped(u, stamp)) <==> FitsStore(u) && env.validTime(stamp)
    ensures IdOf(Stamped(u, stamp)) == u.id
    ensures Acceptable(env, Stamped(u, stamp)) ==> EventIdOf(Stamped(u, stamp)) == Success(u.id)
  {
    hide IsEventId, SemanticDocument;
    var a := Stamped(u, stamp);
    assert Get(a.payload, OutboxEventId) == JStr(u.id) && Get(a.payload, DeliverySemantics) == JStr("AT_LEAST_ONCE");
  }

  /** An audit record of a run is accepted exactly when the use it tells of fits the store and its stamp is valid. */
  lemma LoggedRecordAcceptedIff(ok: string -> bool, env: Env, ops: seq<Op>, a: AuditRecord)
    requires TimedRun(ok, ops) && a in Run(ok, ops).world.audit
    ensures LogUse(a) in Run(ok, ops).uses
    ensures Acceptable(env, a) <==> FitsStore(LogUse(a)) && env.validTime(a.timestamp)
  {
    hide WithinLimits, PendingUses, DeliveredAreLogged, Acceptable, FitsStore, Stamped, LogUse;
    NoEventLost(ok, ops);
    StampedAcceptableIff(env, LogUse(a), a.timestamp);
  }

  /** The records of a queued request are accepted exactly when the request and the stamps fit the store: its stable
      identifier has the store's form, its names are within the store's limits, and the record's stamp is valid. */
  lemma QueuedRequestAcceptedIff(ok: string -> bool, env: Env, ops: seq<Op>, request: Request, a: AuditRecord)
    requires TimedRun(ok, ops) && a in Run(ok, ops).world.audit && LogUse(a) == RequestUse(request)
    ensures Acceptable(env, a) <==>
            && IsEventId(StableId(request)) && IsName(request.event) && IsName(request.actor)
            && env.validTime(a.timestamp)
  {
    hide Acceptable, IsEventId, LogUse;
    LoggedRecordAcceptedIff(ok, env, ops, a);
  }

  // ----- conflicts -----

  /** What is told of by a record the store accepts. */
  function StorableUses(env: Env, audit: seq<AuditRecord>): set<Use> {
    set a | a in audit && Acceptable(env, a) :: LogUse(a)
  }

  function UseText(env: Env, u: Use): string {
    env.dump(SemanticDocument(Stamped(u, "")))
  }

  function UseTexts(env: Env, uses: set<Use>): set<string> {
    set u | u in uses :: UseText(env, u)
  }

  lemma RecordText(env: Env, a: AuditRecord)
    requires a == Stamped(LogUse(a), a.timestamp)
    ensures env.dump(SemanticDocument(a)) == UseText(env, LogUse(a))
  {
    var b := Stamped(LogUse(a), "");
    assert a.event == b.event && a.actor == b.actor && a.payload == b.payload;
    hide Stamped, LogUse;
  }

  /** Uses of one content per identifier have records of one digest per identifier. */
  lemma OneContentOneDigest(env: Env, audit: seq<AuditRecord>)
    requires LogIsStamped(audit) && OneContent(StorableUses(env, audit))
    ensures OneDigest(env, audit)
  {
    hide LogUse, Stamped, EventIdOf, FitsStore, IdOf;
    forall a, b | a in audit && b in audit && Acceptable(env, a) && Acceptable(env, b) && EventIdOf(a) == EventIdOf(b)
      ensures SemanticDigest(env, a) == SemanticDigest(env, b)
    {
      StampedAcceptableIff(env, LogUse(a), a.timestamp);
      StampedAcceptableIff(env, LogUse(b), b.timestamp);
      assert LogUse(a) in StorableUses(env, audit) && LogUse(b) in StorableUses(env, audit);
      RecordText(env, a);
      RecordText(env, b);
    }
  }

  /** Conversely, when no two different texts share a digest. */
  lemma OneDigestOneContent(env: Env, audit: seq<AuditRecord>)
    requires env.Faithful() && LogIsStamped(audit) && OneDigest(env, audit)
    requires CollisionFree(env.sha, UseTexts(env, StorableUses(env, audit)))
    ensures OneContent(StorableUses(env, audit))
  {
    hide LogUse, Stamped, EventIdOf, FitsStore, IdOf, SemanticDigest, SemanticDocument, UseText, Env.Faithful,
         CollisionFree;
    var uses := StorableUses(env, audit);
    forall u, v | u in uses && v in uses && u.id == v.id ensures u == v {
      var a :| a in audit && Acceptable(env, a) && LogUse(a) == u;
      var b :| b in audit && Acceptable(env, b) && LogUse(b) == v;
      StampedAcceptableIff(env, u, a.timestamp);
      StampedAcceptableIff(env, v, b.timestamp);
      RecordText(env, a);
      RecordText(env, b);
      FewerTexts(env.sha, {env.dump(SemanticDocument(a)), env.dump(SemanticDocument(b))}, UseTexts(env, uses));
      DigestIgnoresTimestampOnly(env, a, b);
      SameUse(a, b);
    }
  }

  lemma FewerTexts(sha: string -> string, few: set<string>, texts: set<string>)
    requires few <= texts && CollisionFree(sha, texts)
    ensures CollisionFree(sha, few)
  {
  }

  /** When storable uses have one content per identifier, any sequence of log records, in any order and with any
      repetitions, ingests without a conflict, and each event is counted as often as it was accepted. */
  lemma LogIngestsWithoutConflict(ok: string -> bool, env: Env, ops: seq<Op>, ds: seq<Delivery>, id: string)
    requires env.Faithful() && TimedRun(ok, ops) && DrawnFrom(ds, Run(ok, ops).world.audit)
    requires OneContent(StorableUses(env, Run(ok, ops).world.audit))
    ensures var store := IngestAll(env, EMPTY, ds);
            store.conflicts == [] && Rejected(env, EMPTY, ds) == 0 && Count(store, id) == Accepted(env, EMPTY, ds, id)
  {
    hide WithinLimits, PendingUses, DeliveredAreLogged, LogIsStamped, OneContent, OneDigest, IngestAll, Rejected,
         Accepted;
    hide Count, Env.Faithful, Run, TimedRun;
    var audit := Run(ok, ops).world.audit;
    NoEventLost(ok, ops);
    OneContentOneDigest(env, audit);
    PoolConflictFreeIff(env, audit);
    RunAccounting(env, ds, id);
  }

  /** The log of a run ingests without a conflict, in every order and multiplicity, exactly when no identifier was
      logged with two contents that both fit the store. */
  lemma LogConflictFreeIff(ok: string -> bool, env: Env, ops: seq<Op>)
    requires env.Faithful() && TimedRun(ok, ops)
    requires CollisionFree(env.sha, UseTexts(env, StorableUses(env, Run(ok, ops).world.audit)))
    ensures var audit := Run(ok, ops).world.audit;
            ConflictFree(env, audit) <==> OneContent(StorableUses(env, audit))
  {
    hide WithinLimits, PendingUses, DeliveredAreLogged, LogIsStamped, OneContent, OneDigest, ConflictFree,
         CollisionFree;
    hide Env.Faithful, Run, TimedRun;
    var audit := Run(ok, ops).world.audit;
    NoEventLost(ok, ops);
    PoolConflictFreeIff(env, audit);
    if OneContent(StorableUses(env, audit)) {
      OneContentOneDigest(env, audit);
    }
    if OneDigest(env, audit) {
      OneDigestOneContent(env, audit);
    }
  }

  /** With nothing pending and valid stamps, what is storable is exactly what was queued and fits the store. */
  lemma DrainedUses(ok: string -> bool, env: Env, ops: seq<Op>)
    requires TimedRun(ok, ops) && Pending(Run(ok, ops).world.records) == []
    requires forall a :: a in Run(ok, ops).world.audit ==> env.validTime(a.timestamp)
    ensures StorableUses(env, Run(ok, ops).world.audit) == set u | u in Run(ok, ops).uses && FitsStore(u)
  {
    hide FitsStore, LogUse, Acceptable, RecordUse, Run, TimedRun, Filter;
    var sys := Run(ok, ops);
    NoEventLost(ok, ops);
    OrderContents(sys.world.records);
    assert PendingOrder(sys.world.records) == [];
    assert sys.uses == LoggedUses(sys.world.audit);
    forall a | a in sys.world.audit ensures Acceptable(env, a) <==> FitsStore(LogUse(a)) {
      LoggedRecordAcceptedIff(ok, env, ops, a);
    }
  }

  /** Once drained, a run ingests without a conflict exactly when no identifier was queued with two contents that both
      fit the store. */
  lemma DrainedConflictFreeIff(ok: string -> bool, env: Env, ops: seq<Op>)
    requires env.Faithful() && TimedRun(ok, ops) && Pending(Run(ok, ops).world.records) == []
    requires forall a :: a in Run(ok, ops).world.audit ==> env.validTime(a.timestamp)
    requires CollisionFree(env.sha, UseTexts(env, Run(ok, ops).uses))
    ensures ConflictFree(env, Run(ok, ops).world.audit) <==>
            OneContent(set u | u in Run(ok, ops).uses && FitsStore(u))
  {
    hide FitsStore, Run, TimedRun, Env.Faithful, CollisionFree, OneContent, ConflictFree, UseText, StorableUses;
    var sys := Run(ok, ops);
    DrainedUses(ok, env, ops);
    FewerTexts(env.sha, UseTexts(env, StorableUses(env, sys.world.audit)), UseTexts(env, sys.uses));
    LogConflictFreeIff(ok, env, ops);
  }

  // ----- complete ingestion -----

  function LoggedIds(audit: seq<AuditRecord>): set<string> {
    set a | a in audit :: IdOf(a)
  }

  ghost predicate FitsLog(env: Env, a: AuditRecord) {
    FitsStore(LogUse(a)) && env.validTime(a.timestamp)
  }

  ghost predicate LogFits(env: Env, audit: seq<AuditRecord>) {
    forall a :: a in audit ==> FitsLog(env, a)
  }

  lemma FittingLog(ok: string -> bool, env: Env, ops: seq<Op>)
    requires TimedRun(ok, ops)
    ensures var audit := Run(ok, ops).world.audit;
            && (LogFits(env, audit) <==> AllAcceptable(env, audit))
            && (LogFits(env, audit) ==>
               StorableUses(env, audit) == LoggedUses(audit) && PoolIds(env, audit) == LoggedIds(audit))
  {
    hide FitsStore, LogUse, Acceptable, Run, TimedRun, EventIdOf, IdOf, Stamped;
    var audit := Run(ok, ops).world.audit;
    NoEventLost(ok, ops);
    forall a | a in audit
      ensures Acceptable(env, a) <==> FitsLog(env, a)
      ensures Acceptable(env, a) ==> EventIdOf(a) == Success(IdOf(a))
    {
      LoggedRecordAcceptedIff(ok, env, ops, a);
      StampedAcceptableIff(env, LogUse(a), a.timestamp);
    }
  }

  /** A log that fits the store is stored once per event, with the number of its deliveries. */
  lemma LogIngestsCompletely(ok: string -> bool, env: Env, ops: seq<Op>, ds: seq<Delivery>)
    requires TimedRun(ok, ops) && DrawnFrom(ds, Run(ok, ops).world.audit)
    requires var audit := Run(ok, ops).world.audit;
             |LoggedIds(audit)| <= MAX_EVENTS && LogFits(env, audit) && OneContent(LoggedUses(audit))
    ensures Mirrors(IngestAll(env, EMPTY, ds), ds, PoolMeaning(env, Run(ok, ops).world.audit))
    ensures ds != [] ==> LastResult(env, EMPTY, ds).Success?
  {
    hide Run, TimedRun, LogFits, OneContent, OneDigest, LoggedIds, PoolIds, LogIsStamped, StorableUses, LoggedUses;
    hide WithinLimits, PendingUses, DeliveredAreLogged, Mirrors, PoolMeaning, AllAcceptable;
    var audit := Run(ok, ops).world.audit;
    FittingLog(ok, env, ops);
    NoEventLost(ok, ops);
    OneContentOneDigest(env, audit);
    PoolIngestsCompletely(env, audit, ds);
  }

  /** The log of a run is ingested completely, in every order and multiplicity, exactly when its identifiers fit the
      store's capacity, every record fits the store's format, and no identifier was logged with two contents. */
  lemma LogIngestsCompletelyIff(ok: string -> bool, env: Env, ops: seq<Op>)
    requires env.Faithful() && TimedRun(ok, ops)
    requires CollisionFree(env.sha, UseTexts(env, LoggedUses(Run(ok, ops).world.audit)))
    ensures var audit := Run(ok, ops).world.audit;
            AllAccepted(env, audit) <==>
            |LoggedIds(audit)| <= MAX_EVENTS && LogFits(env, audit) && OneContent(LoggedUses(audit))
  {
    hide Run, TimedRun, LogFits, OneContent, OneDigest, LoggedIds, PoolIds, LogIsStamped, StorableUses, LoggedUses;
    hide WithinLimits, PendingUses, DeliveredAreLogged, AllAcceptable, AllAccepted, Env.Faithful, CollisionFree,
         UseTexts;
    var audit := Run(ok, ops).world.audit;
    FittingLog(ok, env, ops);
    NoEventLost(ok, ops);
    PoolIngestsCompletelyIff(env, audit);
    if LogFits(env, audit) {
      if OneContent(LoggedUses(audit)) {
        OneContentOneDigest(env, audit);
      }
      if OneDigest(env, audit) {
        OneDigestOneContent(env, audit);
      }
    }
  }
}
