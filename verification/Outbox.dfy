/** The event outbox: bounded queueing, eviction of delivered entries, and ordered delivery to the audit log. */
module Outbox {
  import opened EchoStore
  import opened JsonDocuments
  import opened Sorting
  import opened Text
  import opened Wrappers

  const MAX_PENDING := 32
  const MAX_DELIVERED := 16

  /** One entry of the outbox mapping; a list of records keeps the mapping's insertion order. */
  datatype Record = Record(id: string, entry: Json)

  datatype Request = Request(event: string, actor: string, payload: map<Field, Json>, id: Option<string>,
                             uuid: string, now: string)

  datatype OutboxError = EmptyName | ReservedKeys | MalformedRecords | PendingFull | DuplicateId | BadLimit

  // ----- entries -----

  predicate HasStatus(r: Record, status: string) {
    Get(FieldsOf(r.entry), Status) == JStr(status)
  }

  predicate IsPending(r: Record) {
    HasStatus(r, "PENDING")
  }

  predicate IsDelivered(r: Record) {
    HasStatus(r, "DELIVERED")
  }

  predicate NoReservedKeys(payload: map<Field, Json>) {
    OutboxEventId !in payload && DeliverySemantics !in payload
  }

  predicate IsStamp(ok: string -> bool, v: Json) {
    IsText(v) && ok(v.s)
  }

  /** `ok` recognises timezone-aware timestamps. */
  predicate EntryValid(ok: string -> bool, r: Record) {
    var fields := FieldsOf(r.entry);
    && r.id != "" && r.entry.JObj?
    && Get(fields, Schema) == JStr("WS-SARA-EVENT-OUTBOX-V1")
    && Get(fields, EventId) == JStr(r.id)
    && (IsPending(r) || IsDelivered(r))
    && IsText(Get(fields, Event)) && IsText(Get(fields, Actor))
    && Get(fields, Payload).JObj? && NoReservedKeys(FieldsOf(Get(fields, Payload)))
    && IsStamp(ok, Get(fields, CreatedAt))
    && Get(fields, EntrySemantics) == JStr("AT_LEAST_ONCE")
    && (IsDelivered(r) ==> IsStamp(ok, Get(fields, DeliveredAt)))
  }

  predicate AllValid(ok: string -> bool, records: seq<Record>) {
    forall i :: 0 <= i < |records| ==> EntryValid(ok, records[i])
  }

  function NewEntry(id: string, request: Request): Json {
    JObj(map[Schema := JStr("WS-SARA-EVENT-OUTBOX-V1"), EventId := JStr(id), Status := JStr("PENDING"),
             Event := JStr(request.event), Actor := JStr(request.actor), Payload := JObj(request.payload),
             CreatedAt := JStr(request.now), EntrySemantics := JStr("AT_LEAST_ONCE")])
  }

  // ----- selecting and sorting records -----

  function Filter(records: seq<Record>, keep: Record -> bool): seq<Record> {
    if records == [] then [] else
      var last := records[|records| - 1];
      Filter(records[..|records| - 1], keep) + if keep(last) then [last] else []
  }

  function Pending(records: seq<Record>): seq<Record> {
    Filter(records, IsPending)
  }

  function Delivered(records: seq<Record>): seq<Record> {
    Filter(records, IsDelivered)
  }

  predicate Before(a: (string, string), b: (string, string)) {
    Less(a.0, b.0) || (a.0 == b.0 && Less(a.1, b.1))
  }

  function TextOf(v: Json): string {
    if v.JStr? then v.s else ""
  }

  function CreationKey(r: Record): (string, string) {
    (TextOf(Get(FieldsOf(r.entry), CreatedAt)), r.id)
  }

  function DeliveryKey(r: Record): (string, string) {
    (TextOf(Get(FieldsOf(r.entry), DeliveredAt)), "")
  }

  predicate CreatedBefore(a: Record, b: Record) {
    Before(CreationKey(a), CreationKey(b))
  }

  predicate DeliveredBefore(a: Record, b: Record) {
    Before(DeliveryKey(a), DeliveryKey(b))
  }

  lemma NotBeforeTransitive(a: (string, string), b: (string, string), c: (string, string))
    requires !Before(b, a) && !Before(c, b)
    ensures !Before(c, a)
  {
    hide Less;
    LessTotal(a.0, b.0);
    LessTotal(b.0, c.0);
    LessTotal(a.1, b.1);
    LessTotal(b.1, c.1);
    LessIrreflexive(a.0);
    LessIrreflexive(a.1);
    if Less(c.0, a.0) {
      if Less(a.0, b.0) { LessTransitive(c.0, a.0, b.0); } 
    } else if c.0 == a.0 && Less(c.1, a.1) {
      if Less(a.0, b.0) { assert Less(c.0, b.0); }
      if a.0 == b.0 && Less(a.1, b.1) { LessTransitive(c.1, a.1, b.1); }
    }
  }

  lemma BeforeAsymmetric(a: (string, string), b: (string, string))
    requires Before(a, b)
    ensures !Before(b, a)
  {
    hide Less;
    if Before(b, a) {
      if Less(a.0, b.0) && Less(b.0, a.0) {
        LessTransitive(a.0, b.0, a.0);
      } else if a.0 == b.0 && Less(a.1, b.1) && Less(b.1, a.1) {
        LessTransitive(a.1, b.1, a.1);
      }
      LessIrreflexive(a.0);
      LessIrreflexive(a.1);
    }
  }

  lemma RecordOrders()
    ensures WeakOrder(CreatedBefore) && WeakOrder(DeliveredBefore)
  {
    hide Before, CreationKey, DeliveryKey;
    forall a, b | CreatedBefore(a, b) ensures !CreatedBefore(b, a) {
      BeforeAsymmetric(CreationKey(a), CreationKey(b));
    }
    forall a, b | DeliveredBefore(a, b) ensures !DeliveredBefore(b, a) {
      BeforeAsymmetric(DeliveryKey(a), DeliveryKey(b));
    }
    forall a, b, c | !CreatedBefore(b, a) && !CreatedBefore(c, b) ensures !CreatedBefore(c, a) {
      NotBeforeTransitive(CreationKey(a), CreationKey(b), CreationKey(c));
    }
    forall a, b, c | !DeliveredBefore(b, a) && !DeliveredBefore(c, b) ensures !DeliveredBefore(c, a) {
      NotBeforeTransitive(DeliveryKey(a), DeliveryKey(b), DeliveryKey(c));
    }
  }

  lemma SortDelivered(records: seq<Record>)
    ensures SortedBy(DeliveredBefore, Sort(DeliveredBefore, records))
    ensures multiset(Sort(DeliveredBefore, records)) == multiset(records)
    ensures |Sort(DeliveredBefore, records)| == |records|
  {
    RecordOrders();
    SortSorts(DeliveredBefore, records);
  }

  lemma SortCreated(records: seq<Record>)
    ensures SortedBy(CreatedBefore, Sort(CreatedBefore, records))
    ensures multiset(Sort(CreatedBefore, records)) == multiset(records)
    ensures |Sort(CreatedBefore, records)| == |records|
  {
    RecordOrders();
    SortSorts(CreatedBefore, records);
  }

  // ----- identifiers -----

  function Ids(records: seq<Record>): set<string> {
    set i | 0 <= i < |records| :: records[i].id
  }

  ghost predicate Unique(records: seq<Record>) {
    forall i, j :: 0 <= i < j < |records| ==> records[i].id != records[j].id
  }

  lemma IdsOfConcat(a: seq<Record>, b: seq<Record>)
    ensures Ids(a + b) == Ids(a) + Ids(b)
  {
    forall id | id in Ids(a) + Ids(b) ensures id in Ids(a + b) {
      if id in Ids(a) {
        var i :| 0 <= i < |a| && a[i].id == id;
        assert (a + b)[i].id == id;
      } else {
        var i :| 0 <= i < |b| && b[i].id == id;
        assert (a + b)[|a| + i].id == id;
      }
    }
  }

  lemma IdsPrefix(records: seq<Record>)
    requires records != []
    ensures Ids(records) == Ids(records[..|records| - 1]) + {records[|records| - 1].id}
  {
    var init, last := records[..|records| - 1], records[|records| - 1];
    assert records == init + [last];
    assert [last][0].id == last.id;
    IdsOfConcat(init, [last]);
    assert Ids([last]) == {last.id};
  }

  lemma {:induction false} UniqueCount(records: seq<Record>)
    requires Unique(records)
    ensures |Ids(records)| == |records|
    decreases |records|
  {
    if records == [] {
    } else {
      UniqueCount(records[..|records| - 1]);
      IdsPrefix(records);
    }
  }

  lemma {:induction false} FilterElements(records: seq<Record>, keep: Record -> bool)
    ensures forall r :: r in Filter(records, keep) <==> r in records && keep(r)
    ensures Unique(records) ==> Unique(Filter(records, keep))
    decreases |records|
  {
    if records == [] {
    } else {
      var init, last := records[..|records| - 1], records[|records| - 1];
      FilterElements(init, keep);
      assert records == init + [last];
      if Unique(records) {
        var kept := Filter(init, keep);
        forall i | 0 <= i < |kept| ensures kept[i].id != last.id {
          assert kept[i] in init;
        }
      }
    }
  }

  lemma {:induction false} FilterConcat(a: seq<Record>, b: seq<Record>, keep: Record -> bool)
    ensures Filter(a + b, keep) == Filter(a, keep) + Filter(b, keep)
    decreases |b|
  {
    if b == [] {
      assert a + b == a;
    } else {
      FilterConcat(a, b[..|b| - 1], keep);
      assert (a + b)[..|a + b| - 1] == a + b[..|b| - 1];
    }
  }

  lemma {:induction false} FilterAgain(records: seq<Record>, p: Record -> bool, q: Record -> bool, both: Record -> bool)
    requires forall r :: r in records ==> both(r) == (p(r) && q(r))
    ensures Filter(Filter(records, p), q) == Filter(records, both)
    decreases |records|
  {
    if records == [] {
    } else {
      var init, last := records[..|records| - 1], records[|records| - 1];
      assert last in records && forall r :: r in init ==> r in records;
      FilterAgain(init, p, q, both);
      FilterConcat(Filter(init, p), if p(last) then [last] else [], q);
      assert Filter([], q) == [];
      assert [last][..0] == [];
    }
  }

  // ----- eviction -----

  /** Delivered entries from the oldest delivery on. */
  function Oldest(records: seq<Record>): seq<Record> {
    Sort(DeliveredBefore, Delivered(records))
  }

  function Excess(records: seq<Record>): nat {
    var n := |Delivered(records)|;
    if n >= MAX_DELIVERED then n - MAX_DELIVERED + 1 else 0
  }

  lemma OldestLength(records: seq<Record>)
    ensures |Oldest(records)| == |Delivered(records)| && Excess(records) <= |Oldest(records)|
  {
    SortDelivered(Delivered(records));
    assert |multiset(Oldest(records))| == |multiset(Delivered(records))|;
  }

  /** Identifiers removed to make room: the oldest deliveries beyond the fifteen that are kept. */
  function Evicted(records: seq<Record>): set<string> {
    OldestLength(records);
    Ids(Oldest(records)[..Excess(records)])
  }

  function Evict(records: seq<Record>): seq<Record> {
    Filter(records, (r: Record) => r.id !in Evicted(records))
  }

  ghost predicate SameRecords(a: seq<Record>, b: seq<Record>) {
    multiset(a) == multiset(b)
  }

  lemma UniquePermutation(a: seq<Record>, b: seq<Record>)
    requires Unique(a) && SameRecords(a, b)
    ensures Unique(b)
  {
    forall i, j | 0 <= i < j < |b| ensures b[i].id != b[j].id {
      if b[i].id == b[j].id {
        assert b[i] in multiset(a) && b[j] in multiset(a);
        assert b[i] in a && b[j] in a;
        SameIdSameRecord(a, b[i], b[j]);
        assert b[..j] + [b[j]] + b[j + 1..] == b;
        assert b[i] in b[..j];
        assert multiset(b)[b[j]] >= 2;
        AtMostOnce(a, b[j]);
      }
    }
  }

  lemma SameIdSameRecord(a: seq<Record>, x: Record, y: Record)
    requires Unique(a) && x in a && y in a && x.id == y.id
    ensures x == y
  {
  }

  lemma {:induction false} AtMostOnce(a: seq<Record>, x: Record)
    requires Unique(a)
    ensures multiset(a)[x] <= 1
    decreases |a|
  {
    if a == [] {
    } else {
      var init, last := a[..|a| - 1], a[|a| - 1];
      AtMostOnce(init, x);
      assert a == init + [last];
      if x == last && x in init {
        assert false;
      }
    }
  }

  /** Only delivered entries are evicted, and no evicted one was delivered after one that stays. */
  lemma EvictsOldestDelivered(records: seq<Record>, gone: Record, kept: Record)
    requires Unique(records) && gone in records && kept in records
    requires gone.id in Evicted(records) && kept.id !in Evicted(records)
    ensures IsDelivered(gone)
    ensures IsDelivered(kept) ==> !Less(TextOf(Get(FieldsOf(kept.entry), DeliveredAt)),
                                        TextOf(Get(FieldsOf(gone.entry), DeliveredAt)))
  {
    NotDeliveredBefore(kept, gone);
    hide DeliveredBefore, IsDelivered, Sort, Filter, Less;
    var oldest, n := Oldest(records), Excess(records);
    OldestLength(records);
    EvictedPrefix(records);
    SortDelivered(Delivered(records));
    FilterElements(records, IsDelivered);
    var i :| 0 <= i < n && oldest[..n][i].id == gone.id;
    InOldest(records, oldest[i]);
    SameIdSameRecord(records, gone, oldest[i]);
    if IsDelivered(kept) {
      InOldest(records, kept);
      var j :| 0 <= j < |oldest| && oldest[j] == kept;
      assert j >= n;
    }
  }

  lemma NotDeliveredBefore(a: Record, b: Record)
    ensures !DeliveredBefore(a, b) ==> !Less(TextOf(Get(FieldsOf(a.entry), DeliveredAt)),
                                             TextOf(Get(FieldsOf(b.entry), DeliveredAt)))
  {
  }

  lemma EvictedPrefix(records: seq<Record>)
    ensures Excess(records) <= |Oldest(records)|
    ensures forall j :: 0 <= j < Excess(records) ==> Oldest(records)[j].id in Evicted(records)
  {
    hide Oldest;
    OldestLength(records);
    forall j | 0 <= j < Excess(records) ensures Oldest(records)[j].id in Evicted(records) {
      assert Oldest(records)[..Excess(records)][j].id == Oldest(records)[j].id;
    }
  }

  lemma InOldest(records: seq<Record>, r: Record)
    ensures r in Oldest(records) <==> r in records && IsDelivered(r)
  {
    hide IsDelivered, Sort, Filter;
    SortDelivered(Delivered(records));
    FilterElements(records, IsDelivered);
    assert r in Oldest(records) <==> r in multiset(Oldest(records));
    assert r in Delivered(records) <==> r in multiset(Delivered(records));
  }

  lemma StatusesDiffer(r: Record)
    ensures !(IsPending(r) && IsDelivered(r))
  {
    assert |"PENDING"| != |"DELIVERED"|;
  }

  /** Eviction never touches a pending entry. */
  lemma EvictKeepsPending(records: seq<Record>)
    requires Unique(records)
    ensures Pending(Evict(records)) == Pending(records)
  {
    hide IsPending, IsDelivered, Evicted;
    var keep := (r: Record) => r.id !in Evicted(records);
    forall r | r in records ensures IsPending(r) == (keep(r) && IsPending(r)) {
      StatusesDiffer(r);
      if r.id in Evicted(records) {
        EvictedIsDelivered(records, r);
      }
    }
    FilterAgain(records, keep, IsPending, IsPending);
  }

  lemma EvictedIsDelivered(records: seq<Record>, r: Record)
    requires Unique(records) && r in records && r.id in Evicted(records)
    ensures IsDelivered(r)
  {
    hide IsDelivered, Oldest;
    OldestLength(records);
    var oldest, n := Oldest(records), Excess(records);
    var i :| 0 <= i < n && oldest[..n][i].id == r.id;
    InOldest(records, oldest[i]);
    SameIdSameRecord(records, r, oldest[i]);
  }

  /** At most fifteen delivered entries are left, so a sixteenth delivery always fits. */
  lemma EvictMakesRoom(records: seq<Record>)
    requires Unique(records)
    ensures |Delivered(Evict(records))| < MAX_DELIVERED
    ensures Unique(Evict(records))
  {
    hide IsDelivered, Oldest, Sort, Filter;
    var all, left := Delivered(records), Delivered(Evict(records));
    FilterElements(records, IsDelivered);
    FilterElements(records, (r: Record) => r.id !in Evicted(records));
    FilterElements(Evict(records), IsDelivered);
    UniqueCount(all);
    UniqueCount(left);
    EvictedCount(records);
    forall id | id in Ids(left) ensures id in Ids(all) && id !in Evicted(records) {
      var i :| 0 <= i < |left| && left[i].id == id;
      assert left[i] in Evict(records) && left[i] in all;
    }
    SubsetSize(Ids(left), Ids(all) - Evicted(records));
    DifferenceSize(Ids(all), Evicted(records));
  }

  lemma DifferenceSize(a: set<string>, b: set<string>)
    requires b <= a
    ensures |a - b| == |a| - |b|
  {
    assert a == (a - b) + b;
  }

  lemma EvictedCount(records: seq<Record>)
    requires Unique(records)
    ensures |Evicted(records)| == Excess(records) && Evicted(records) <= Ids(Delivered(records))
  {
    hide IsDelivered, Sort, Filter;
    var oldest, n := Oldest(records), Excess(records);
    OldestLength(records);
    SortDelivered(Delivered(records));
    FilterElements(records, IsDelivered);
    UniquePermutation(Delivered(records), oldest);
    UniqueCount(oldest[..n]);
    forall id | id in Evicted(records) ensures id in Ids(Delivered(records)) {
      var i :| 0 <= i < n && oldest[..n][i].id == id;
      assert oldest[i] in multiset(Delivered(records));
      assert oldest[i] in Delivered(records);
    }
  }

  // ----- queueing -----

  function StableId(request: Request): string {
    if request.id.Some? && request.id.value != "" then request.id.value else "SARA-EVENT-" + request.uuid
  }

  function QueueStep(ok: string -> bool, records: seq<Record>, request: Request):
      Result<(seq<Record>, string), OutboxError>
  {
    var id := StableId(request);
    if request.event == "" || request.actor == "" then Failure(EmptyName)
    else if !NoReservedKeys(request.payload) then Failure(ReservedKeys)
    else if !AllValid(ok, records) then Failure(MalformedRecords)
    else if |Pending(records)| >= MAX_PENDING then Failure(PendingFull)
    else if id in Ids(records) then Failure(DuplicateId)
    else Success((Evict(records) + [Record(id, NewEntry(id, request))], id))
  }

  /** All requests against one evolving snapshot; any failure discards the whole patch. */
  function QueueAll(ok: string -> bool, records: seq<Record>, requests: seq<Request>):
      Result<(seq<Record>, seq<string>), OutboxError>
  {
    if requests == [] then Success((records, [])) else
      var before := QueueAll(ok, records, requests[..|requests| - 1]);
      if before.Failure? then before else
        var step := QueueStep(ok, before.value.0, requests[|requests| - 1]);
        if step.Failure? then Failure(step.error) else Success((step.value.0, before.value.1 + [step.value.1]))
  }

  // ----- delivery -----

  /** The pending entries in delivery order: by creation time, then identifier. */
  function PendingOrder(records: seq<Record>): seq<Record> {
    Sort(CreatedBefore, Pending(records))
  }

  function Mark(entry: Json, stamp: string): Json {
    JObj(FieldsOf(entry)[Status := JStr("DELIVERED")][DeliveredAt := JStr(stamp)])
  }

  function MarkDelivered(records: seq<Record>, id: string, stamp: string): (r: seq<Record>)
    ensures |r| == |records|
  {
    seq(|records|, (i: nat) requires i < |records| =>
      if records[i].id == id then Record(id, Mark(records[i].entry, stamp)) else records[i])
  }

  function AuditOf(r: Record, stamp: string): AuditRecord {
    var fields := FieldsOf(r.entry);
    AuditRecord(stamp, TextOf(Get(fields, Event)), TextOf(Get(fields, Actor)),
                FieldsOf(Get(fields, Payload))[OutboxEventId := JStr(r.id)][DeliverySemantics := JStr("AT_LEAST_ONCE")])
  }

  /** The outbox and the audit log it is drained into. */
  datatype World = World(records: seq<Record>, audit: seq<AuditRecord>)

  /** When the audit record and when the delivery mark are stamped. */
  datatype Stamps = Stamps(appended: string, marked: string)

  /** The oldest pending event is appended to the log and only then marked; with nothing pending, nothing happens. */
  function Deliver(w: World, stamps: Stamps): World {
    var order := PendingOrder(w.records);
    if order == [] then w else
      World(MarkDelivered(w.records, order[0].id, stamps.marked), w.audit + [AuditOf(order[0], stamps.appended)])
  }

  /** The append happened but the mark was never committed. */
  function Crash(w: World, stamps: Stamps): World {
    w.(audit := Deliver(w, stamps).audit)
  }

  // ----- capacity -----

  ghost predicate WithinLimits(ok: string -> bool, records: seq<Record>) {
    && Unique(records) && AllValid(ok, records)
    && |Pending(records)| <= MAX_PENDING
    && |records| <= MAX_PENDING + MAX_DELIVERED - 1
  }

  lemma {:induction false} StatusPartition(ok: string -> bool, records: seq<Record>)
    requires AllValid(ok, records)
    ensures |records| == |Pending(records)| + |Delivered(records)|
    decreases |records|
  {
    if records == [] {
    } else {
      var init, last := records[..|records| - 1], records[|records| - 1];
      StatusPartition(ok, init);
      StatusesDiffer(last);
      assert EntryValid(ok, last);
    }
  }

  lemma NewEntryValid(ok: string -> bool, id: string, request: Request)
    requires id != "" && request.event != "" && request.actor != "" && NoReservedKeys(request.payload)
    requires request.now != "" && ok(request.now)
    ensures EntryValid(ok, Record(id, NewEntry(id, request))) && IsPending(Record(id, NewEntry(id, request)))
  {
  }

  lemma StableIdNonEmpty(request: Request)
    ensures StableId(request) != ""
  {
  }

  /** Queueing keeps the outbox within its limits and every pending entry in it. */
  lemma QueueKeepsLimits(ok: string -> bool, records: seq<Record>, request: Request)
    requires WithinLimits(ok, records) && QueueStep(ok, records, request).Success?
    requires request.now != "" && ok(request.now)
    ensures var (next, id) := QueueStep(ok, records, request).value;
            && WithinLimits(ok, next) && id !in Ids(records)
            && Pending(next) == Pending(records) + [Record(id, NewEntry(id, request))]
  {
    hide EntryValid, IsPending, IsDelivered, Evicted, NewEntry, Filter, StableId;
    var (next, id) := QueueStep(ok, records, request).value;
    var kept, added := Evict(records), Record(id, NewEntry(id, request));
    StableIdNonEmpty(request);
    NewEntryValid(ok, id, request);
    EvictKeepsPending(records);
    EvictMakesRoom(records);
    FilterElements(records, (r: Record) => r.id !in Evicted(records));
    forall i | 0 <= i < |next| ensures EntryValid(ok, next[i]) {
      assert i < |kept| ==> kept[i] in records;
    }
    forall i | 0 <= i < |kept| ensures kept[i].id != id {
      assert kept[i] in records;
    }
    FilterAppend(kept, added, IsPending);
    FilterAppend(kept, added, IsDelivered);
    StatusesDiffer(added);
    StatusPartition(ok, next);
  }

  lemma FilterAppend(records: seq<Record>, r: Record, keep: Record -> bool)
    ensures Filter(records + [r], keep) == Filter(records, keep) + if keep(r) then [r] else []
  {
    assert (records + [r])[..|records|] == records;
  }

  // ----- delivering keeps the limits and the order -----

  lemma MarkedEntry(ok: string -> bool, r: Record, stamp: string)
    requires EntryValid(ok, r) && stamp != "" && ok(stamp)
    ensures EntryValid(ok, Record(r.id, Mark(r.entry, stamp)))
  {
    var r' := Record(r.id, Mark(r.entry, stamp));
    assert IsDelivered(r');
  }

  lemma MarkedNotPending(id: string, entry: Json, stamp: string)
    ensures !IsPending(Record(id, Mark(entry, stamp)))
  {
    assert IsDelivered(Record(id, Mark(entry, stamp)));
    StatusesDiffer(Record(id, Mark(entry, stamp)));
  }

  lemma MarkPrefix(records: seq<Record>, id: string, stamp: string)
    requires records != []
    ensures var n, marked := |records| - 1, MarkDelivered(records, id, stamp);
            marked[..n] == MarkDelivered(records[..n], id, stamp)
  {
  }

  lemma MarkAbsent(records: seq<Record>, id: string, stamp: string)
    requires id !in Ids(records)
    ensures MarkDelivered(records, id, stamp) == records
  {
    forall i | 0 <= i < |records| ensures records[i].id != id {
    }
  }

  /** Marking the entry takes it, and nothing else, out of the pending ones. */
  lemma {:induction false} PendingAfterMark(records: seq<Record>, first: Record, stamp: string)
    requires Unique(records) && first in records && IsPending(first)
    ensures multiset(Pending(records)) ==
            multiset(Pending(MarkDelivered(records, first.id, stamp))) + multiset{first}
    decreases |records|
  {
    hide IsPending, Mark, Filter, MarkDelivered;
    var n, marked := |records| - 1, MarkDelivered(records, first.id, stamp);
    var init, last := records[..n], records[n];
    MarkPrefix(records, first.id, stamp);
    PendingPrefix(records);
    PendingPrefix(marked);
    MarkLast(records, first.id, stamp);
    if last.id == first.id {
      SameIdSameRecord(records, first, last);
      assert first.id !in Ids(init);
      MarkAbsent(init, first.id, stamp);
      MarkedNotPending(last.id, last.entry, stamp);
    } else {
      assert first in init by {
        var i :| 0 <= i < |records| && records[i] == first;
        assert init[i] == first;
      }
      PendingAfterMark(init, first, stamp);
    }
  }

  lemma PendingPrefix(records: seq<Record>)
    requires records != []
    ensures var n := |records| - 1;
            multiset(Pending(records)) ==
            multiset(Pending(records[..n])) + if IsPending(records[n]) then multiset{records[n]} else multiset{}
  {
    hide IsPending;
  }

  lemma MarkLast(records: seq<Record>, id: string, stamp: string)
    requires records != []
    ensures var n := |records| - 1;
            MarkDelivered(records, id, stamp)[n] ==
            if records[n].id == id then Record(id, Mark(records[n].entry, stamp)) else records[n]
  {
  }

  /** Creation time and identifier order the entries totally, so the sorted list is determined by its contents. */
  lemma PendingListUnique(a: seq<Record>, b: seq<Record>)
    requires SortedBy(CreatedBefore, a) && SortedBy(CreatedBefore, b) && Unique(a) && multiset(a) == multiset(b)
    ensures a == b
  {
    hide CreatedBefore, SortedBy;
    forall x, y | x in a && y in a && x != y ensures CreatedBefore(x, y) || CreatedBefore(y, x) {
      if x.id == y.id {
        SameIdSameRecord(a, x, y);
      }
      KeysDiffer(x, y);
    }
    SortedListUnique(CreatedBefore, a, b);
  }

  lemma KeysDiffer(a: Record, b: Record)
    requires a.id != b.id
    ensures CreatedBefore(a, b) || CreatedBefore(b, a)
  {
    hide Less;
    var x, y := CreationKey(a), CreationKey(b);
    LessTotal(x.0, y.0);
    LessTotal(x.1, y.1);
  }

  /** Delivering the first pending entry leaves the others pending, in the same order. */
  lemma DeliverAdvancesOrder(w: World, stamps: Stamps)
    requires Unique(w.records)
    ensures var order := PendingOrder(w.records);
            PendingOrder(Deliver(w, stamps).records) == if order == [] then [] else order[1..]
  {
    hide IsPending, Mark, Sort, Filter, CreatedBefore;
    var order := PendingOrder(w.records);
    if order != [] {
      var first, next := order[0], Deliver(w, stamps).records;
      OrderContents(w.records);
      assert first in order;
      PendingAfterMark(w.records, first, stamps.marked);
      OrderContents(next);
      var order' := PendingOrder(next);
      TailContents(order);
      assert next == MarkDelivered(w.records, first.id, stamps.marked);
      assert multiset(order') == multiset(order) - multiset{first} == multiset(order[1..]);
      PendingListUnique(order[1..], order');
    }
  }

  lemma OrderContents(records: seq<Record>)
    ensures multiset(PendingOrder(records)) == multiset(Pending(records))
    ensures SortedBy(CreatedBefore, PendingOrder(records))
    ensures forall r :: r in PendingOrder(records) <==> r in records && IsPending(r)
    ensures Unique(records) ==> Unique(PendingOrder(records))
    ensures |PendingOrder(records)| == |Pending(records)|
  {
    hide IsPending, CreatedBefore, Sort, Filter;
    SortCreated(Pending(records));
    FilterElements(records, IsPending);
    if Unique(records) {
      UniquePermutation(Pending(records), PendingOrder(records));
    }
    forall r ensures r in PendingOrder(records) <==> r in records && IsPending(r) {
      assert r in PendingOrder(records) <==> r in multiset(PendingOrder(records));
      assert r in Pending(records) <==> r in multiset(Pending(records));
    }
    assert |multiset(PendingOrder(records))| == |multiset(Pending(records))|;
  }

  /** The pending order goes by creation time, and among equal times by identifier. */
  lemma PendingOldestFirst(records: seq<Record>, i: nat, j: nat)
    requires Unique(records) && i < j < |PendingOrder(records)|
    ensures var (a, b) := (PendingOrder(records)[i], PendingOrder(records)[j]);
            var (s, t) := (TextOf(Get(FieldsOf(a.entry), CreatedAt)), TextOf(Get(FieldsOf(b.entry), CreatedAt)));
            Less(s, t) || (s == t && Less(a.id, b.id))
  {
    hide PendingOrder, Less;
    OrderContents(records);
    var (a, b) := (PendingOrder(records)[i], PendingOrder(records)[j]);
    assert !CreatedBefore(b, a);
    LessTotal(a.id, b.id);
    LessTotal(TextOf(Get(FieldsOf(a.entry), CreatedAt)), TextOf(Get(FieldsOf(b.entry), CreatedAt)));
  }

  lemma DeliverKeepsValid(ok: string -> bool, w: World, stamps: Stamps)
    requires Unique(w.records) && AllValid(ok, w.records) && stamps.marked != "" && ok(stamps.marked)
    ensures Unique(Deliver(w, stamps).records) && AllValid(ok, Deliver(w, stamps).records)
  {
    hide IsPending, IsDelivered, Mark, EntryValid, Sort, Filter, CreatedBefore;
    var order, next := PendingOrder(w.records), Deliver(w, stamps).records;
    if order != [] {
      forall i | 0 <= i < |next| ensures EntryValid(ok, next[i]) {
        MarkedEntry(ok, w.records[i], stamps.marked);
      }
    }
  }

  lemma DeliverKeepsLimits(ok: string -> bool, w: World, stamps: Stamps)
    requires WithinLimits(ok, w.records) && stamps.marked != "" && ok(stamps.marked)
    ensures WithinLimits(ok, Deliver(w, stamps).records)
  {
    hide AllValid, Mark, PendingOrder, Filter;
    DeliverKeepsValid(ok, w, stamps);
    OrderContents(w.records);
    OrderContents(Deliver(w, stamps).records);
    DeliverAdvancesOrder(w, stamps);
  }

  // ----- draining -----

  function Drained(w: World, clock: nat -> Stamps, n: nat): World {
    if n == 0 then w else Deliver(Drained(w, clock, n - 1), clock(n - 1))
  }

  function Audits(order: seq<Record>, clock: nat -> Stamps): (r: seq<AuditRecord>)
    ensures |r| == |order|
  {
    seq(|order|, (k: nat) requires k < |order| => AuditOf(order[k], clock(k).appended))
  }

  ghost predicate ClockValid(ok: string -> bool, clock: nat -> Stamps) {
    forall k :: clock(k).marked != "" && ok(clock(k).marked)
  }

  /** The first n pending events reach the log in order, and the rest stay pending in order. */
  lemma {:induction false} DrainedInOrder(ok: string -> bool, w: World, clock: nat -> Stamps, n: nat)
    requires Unique(w.records) && AllValid(ok, w.records) && ClockValid(ok, clock) && n <= |PendingOrder(w.records)|
    ensures var order := PendingOrder(w.records);
            && Unique(Drained(w, clock, n).records) && AllValid(ok, Drained(w, clock, n).records)
            && Drained(w, clock, n).audit == w.audit + Audits(order[..n], clock)
            && PendingOrder(Drained(w, clock, n).records) == order[n..]
    decreases n
  {
    hide Unique, AllValid, AuditOf, Mark, PendingOrder;
    var order := PendingOrder(w.records);
    if n > 0 {
      DrainedInOrder(ok, w, clock, n - 1);
      var before := Drained(w, clock, n - 1);
      DeliverKeepsValid(ok, before, clock(n - 1));
      DeliverAdvancesOrder(before, clock(n - 1));
      assert Audits(order[..n], clock) ==
             Audits(order[..n - 1], clock) + [AuditOf(order[n - 1], clock(n - 1).appended)];
    } else {
      assert Audits(order[..0], clock) == [];
    }
  }

  lemma LimitsUnique(ok: string -> bool, records: seq<Record>)
    requires WithinLimits(ok, records)
    ensures Unique(records) && AllValid(ok, records)
  {
  }

  function Min(a: int, b: int): int {
    if a <= b then a else b
  }

  class EventOutbox {
    const ok: string -> bool
    var records: seq<Record>
    var audit: seq<AuditRecord>

    ghost function Contents(): World
      reads this
    {
      World(records, audit)
    }

    constructor (ok: string -> bool)
      ensures this.ok == ok && Contents() == World([], []) && WithinLimits(ok, records)
    {
      this.ok := ok;
      records, audit := [], [];
    }

    /** Queues all requests or none. */
    method QueueEvents(requests: seq<Request>) returns (r: Result<seq<string>, OutboxError>)
      modifies this`records
      ensures var expected := QueueAll(ok, old(records), requests);
              if expected.Failure? then r == Failure(expected.error) && records == old(records)
              else r == Success(expected.value.1) && records == expected.value.0
    {
      hide QueueStep;
      var working, ids := records, [];
      for k := 0 to |requests|
        invariant records == old(records)
        invariant QueueAll(ok, records, requests[..k]) == Success((working, ids))
      {
        assert requests[..k + 1][..k] == requests[..k];
        var step := QueueOne(working, requests[k]);
        assert QueueAll(ok, records, requests[..k + 1]) ==
               (if step.Failure? then Failure(step.error) else Success((step.value.0, ids + [step.value.1])));
        if step.Failure? {
          QueueFailureSticks(ok, records, requests, k + 1);
          return Failure(step.error);
        }
        working, ids := step.value.0, ids + [step.value.1];
      }
      assert requests[..|requests|] == requests;
      records := working;
      return Success(ids);
    }

    /** Queues one request on a snapshot of the outbox. */
    method QueueOne(working: seq<Record>, request: Request) returns (r: Result<(seq<Record>, string), OutboxError>)
      ensures r == QueueStep(ok, working, request)
    {
      hide AllValid, Filter, Evict;
      if request.event == "" || request.actor == "" {
        return Failure(EmptyName);
      }
      if OutboxEventId in request.payload || DeliverySemantics in request.payload {
        return Failure(ReservedKeys);
      }
      var valid := CheckEntries(ok, working);
      if !valid {
        return Failure(MalformedRecords);
      }
      var pending := WithStatus(working, "PENDING");
      SameStatus(working);
      if |pending| >= 32 {
        return Failure(PendingFull);
      }
      var id := if request.id.Some? && request.id.value != "" then request.id.value else "SARA-EVENT-" + request.uuid;
      if exists i :: 0 <= i < |working| && working[i].id == id {
        return Failure(DuplicateId);
      }
      var kept := MakeRoom(working);
      var entry := map[Schema := JStr("WS-SARA-EVENT-OUTBOX-V1"), EventId := JStr(id), Status := JStr("PENDING"),
                       Event := JStr(request.event), Actor := JStr(request.actor), Payload := JObj(request.payload),
                       CreatedAt := JStr(request.now), EntrySemantics := JStr("AT_LEAST_ONCE")];
      return Success((kept + [Record(id, JObj(entry))], id));
    }

    /** Delivers exactly the smaller of the limit and the number pending, oldest first; a bad limit or a malformed
        entry stops it before anything is delivered. */
    method Drain(limit: int, clock: nat -> Stamps) returns (r: Result<nat, OutboxError>)
      requires Unique(records) && ClockValid(ok, clock)
      modifies this`records, this`audit
      ensures limit < 1 ==> r == Failure(BadLimit) && Contents() == old(Contents())
      ensures limit >= 1 && !AllValid(ok, old(records)) ==>
                r == Failure(MalformedRecords) && Contents() == old(Contents())
      ensures limit >= 1 && AllValid(ok, old(records)) ==>
                var order := PendingOrder(old(records));
                var n := Min(limit, |order|);
                && r == Success(n) && Contents() == Drained(old(Contents()), clock, n)
                && audit == old(audit) + Audits(order[..n], clock) && PendingOrder(records) == order[n..]
    {
      hide AllValid, AuditOf, MarkDelivered, Unique, EntryValid, CreatedBefore, Filter, IsPending;
      if limit < 1 {
        return Failure(BadLimit);
      }
      ghost var start := Contents();
      ghost var order := PendingOrder(records);
      var delivered := 0;
      while delivered < limit
        invariant delivered <= limit && delivered <= |order|
        invariant Contents() == Drained(start, clock, delivered)
        invariant delivered > 0 ==> AllValid(ok, start.records)
      {
        var valid := CheckEntries(ok, records);
        if !valid {
          DrainStaysValid(ok, start, clock, delivered);
          return Failure(MalformedRecords);
        }
        assert AllValid(ok, start.records);
        DrainedInOrder(ok, start, clock, delivered);
        var pending := WithStatus(records, "PENDING");
        SameStatus(records);
        var oldest := Sort(CreatedBefore, pending);
        if oldest == [] {
          break;
        }
        FirstIsValid(ok, records);
        var stamps := clock(delivered);
        var entry := MakeAudit(ok, oldest[0], stamps.appended);
        audit := audit + [entry];
        records := MarkEntry(records, oldest[0].id, stamps.marked);
        delivered := delivered + 1;
      }
      DrainedInOrder(ok, start, clock, delivered);
      return Success(delivered);
    }
  }

  lemma SameStatus(records: seq<Record>)
    ensures Pending(records) == Filter(records, (r: Record) => HasStatus(r, "PENDING"))
    ensures Delivered(records) == Filter(records, (r: Record) => HasStatus(r, "DELIVERED"))
  {
    hide HasStatus;
    SameFilter(records, IsPending, (r: Record) => HasStatus(r, "PENDING"));
    SameFilter(records, IsDelivered, (r: Record) => HasStatus(r, "DELIVERED"));
  }

  lemma {:induction false} SameFilter(records: seq<Record>, p: Record -> bool, q: Record -> bool)
    requires forall r :: p(r) == q(r)
    ensures Filter(records, p) == Filter(records, q)
    decreases |records|
  {
    if records != [] {
      SameFilter(records[..|records| - 1], p, q);
    }
  }

  method WithStatus(records: seq<Record>, status: string) returns (found: seq<Record>)
    ensures found == Filter(records, (r: Record) => HasStatus(r, status))
  {
    found := [];
    for i := 0 to |records|
      invariant found == Filter(records[..i], (r: Record) => HasStatus(r, status))
    {
      assert records[..i + 1][..i] == records[..i];
      if Get(FieldsOf(records[i].entry), Status) == JStr(status) {
        found := found + [records[i]];
      }
    }
    assert records[..|records|] == records;
  }

  lemma FirstIsValid(ok: string -> bool, records: seq<Record>)
    requires AllValid(ok, records) && PendingOrder(records) != []
    ensures EntryValid(ok, PendingOrder(records)[0])
  {
    hide PendingOrder, EntryValid;
    OrderContents(records);
    assert PendingOrder(records)[0] in PendingOrder(records);
  }

  /** The audit record of an entry: its payload with the outbox's two reserved keys added. */
  method MakeAudit(ok: string -> bool, r: Record, stamp: string) returns (record: AuditRecord)
    requires EntryValid(ok, r)
    ensures record == AuditOf(r, stamp)
  {
    var fields := r.entry.fields;
    var payload := fields[Payload].fields;
    payload := payload[OutboxEventId := JStr(r.id)];
    payload := payload[DeliverySemantics := JStr("AT_LEAST_ONCE")];
    return AuditRecord(stamp, fields[Event].s, fields[Actor].s, payload);
  }

  method MarkEntry(records: seq<Record>, id: string, stamp: string) returns (marked: seq<Record>)
    ensures marked == MarkDelivered(records, id, stamp)
  {
    marked := [];
    for i := 0 to |records|
      invariant marked == MarkDelivered(records, id, stamp)[..i]
    {
      var entry := records[i].entry;
      if records[i].id == id {
        entry := JObj(FieldsOf(entry)[Status := JStr("DELIVERED")][DeliveredAt := JStr(stamp)]);
      }
      marked := marked + [Record(records[i].id, entry)];
    }
  }

  /** Drops the oldest deliveries when sixteen or more are held, so that fifteen stay. */
  method MakeRoom(records: seq<Record>) returns (kept: seq<Record>)
    ensures kept == Evict(records)
  {
    hide HasStatus, Sort, Filter;
    var delivered := WithStatus(records, "DELIVERED");
    SameStatus(records);
    OldestLength(records);
    kept := records;
    var gone: set<string> := {};
    if |delivered| >= 16 {
      var oldest := Sort(DeliveredBefore, delivered);
      for k := 0 to |delivered| - 16 + 1
        invariant gone == Ids(oldest[..k])
      {
        assert oldest[..k + 1][..k] == oldest[..k];
        IdsPrefix(oldest[..k + 1]);
        gone := gone + {oldest[k].id};
      }
    }
    assert gone == Evicted(records);
    kept := Without(records, gone);
    SameFilter(records, (r: Record) => r.id !in gone, (r: Record) => r.id !in Evicted(records));
  }

  method Without(records: seq<Record>, gone: set<string>) returns (kept: seq<Record>)
    ensures kept == Filter(records, (r: Record) => r.id !in gone)
  {
    kept := [];
    for i := 0 to |records|
      invariant kept == Filter(records[..i], (r: Record) => r.id !in gone)
    {
      assert records[..i + 1][..i] == records[..i];
      if records[i].id !in gone {
        kept := kept + [records[i]];
      }
    }
    assert records[..|records|] == records;
  }

  method CheckEntries(ok: string -> bool, records: seq<Record>) returns (valid: bool)
    ensures valid == AllValid(ok, records)
  {
    hide EntryValid;
    for i := 0 to |records|
      invariant AllValid(ok, records[..i])
    {
      var fine := CheckEntry(ok, records[i]);
      if !fine {
        return false;
      }
    }
    return true;
  }

  /** The checks of one entry, in order. */
  method CheckEntry(ok: string -> bool, r: Record) returns (valid: bool)
    ensures valid == EntryValid(ok, r)
  {
    if r.id == "" || !r.entry.JObj? {
      return false;
    }
    var fields := r.entry.fields;
    if Get(fields, Schema) != JStr("WS-SARA-EVENT-OUTBOX-V1") || Get(fields, EventId) != JStr(r.id) {
      return false;
    }
    var status := Get(fields, Status);
    if status != JStr("PENDING") && status != JStr("DELIVERED") {
      return false;
    }
    var event, actor, payload := Get(fields, Event), Get(fields, Actor), Get(fields, Payload);
    if !event.JStr? || event.s == "" || !actor.JStr? || actor.s == "" || !payload.JObj? {
      return false;
    }
    if OutboxEventId in payload.fields || DeliverySemantics in payload.fields {
      return false;
    }
    var created, delivered := Get(fields, CreatedAt), Get(fields, DeliveredAt);
    if !created.JStr? || created.s == "" || !ok(created.s) || Get(fields, EntrySemantics) != JStr("AT_LEAST_ONCE") {
      return false;
    }
    return status != JStr("DELIVERED") || (delivered.JStr? && delivered.s != "" && ok(delivered.s));
  }

  /** A malformed entry can only be found before the first delivery. */
  lemma DrainStaysValid(ok: string -> bool, w: World, clock: nat -> Stamps, n: nat)
    requires Unique(w.records) && ClockValid(ok, clock) && n <= |PendingOrder(w.records)|
    requires n > 0 ==> AllValid(ok, w.records)
    requires !AllValid(ok, Drained(w, clock, n).records)
    ensures n == 0 && !AllValid(ok, w.records)
  {
    hide Unique, AllValid, PendingOrder, AuditOf;
    if AllValid(ok, w.records) {
      DrainedInOrder(ok, w, clock, n);
    }
  }

  lemma {:induction false} QueueFailureSticks(ok: string -> bool, records: seq<Record>, requests: seq<Request>, k: nat)
    requires k <= |requests| && QueueAll(ok, records, requests[..k]).Failure?
    ensures QueueAll(ok, records, requests) == QueueAll(ok, records, requests[..k])
    decreases |requests|
  {
    hide QueueStep;
    if k == |requests| {
      assert requests[..k] == requests;
    } else {
      assert requests[..|requests| - 1][..k] == requests[..k];
      QueueFailureSticks(ok, records, requests[..|requests| - 1], k);
    }
  }
}
