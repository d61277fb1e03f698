/** Reconciliation of a window of audit records against the event store. */
module EchoReconcile {
  import opened EchoStore
  import opened JsonDocuments
  import opened Text
  import opened Wrappers

  datatype Classification = SaraOnly | PayloadMismatch | Matched | EchoOnly

  datatype Entry = Entry(id: string, classification: Classification)

  /** The last record of an identifier wins, and records of one identifier must agree. */
  function ExtendWindow(env: Env, source: map<string, string>, record: AuditRecord):
      Result<map<string, string>, StoreError>
  {
    var id, digest := EventIdOf(record), SemanticDigest(env, record);
    if id.Failure? then Failure(id.error)
    else if digest.Failure? then Failure(digest.error)
    else if id.value in source && source[id.value] != digest.value then Failure(ConflictingContent)
    else Success(source[id.value := digest.value])
  }

  /** The digest of each identifier in the window. */
  function Window(env: Env, records: seq<AuditRecord>): Result<map<string, string>, StoreError> {
    if records == [] then Success(map[]) else
      var before := Window(env, records[..|records| - 1]);
      if before.Failure? then before else ExtendWindow(env, before.value, records[|records| - 1])
  }

  function Classify(events: map<string, StoredEvent>, source: map<string, string>, id: string): Classification {
    if id !in source then EchoOnly
    else if id !in events then SaraOnly
    else if events[id].digest != source[id] then PayloadMismatch
    else Matched
  }

  function Entries(events: map<string, StoredEvent>, source: map<string, string>, ids: seq<string>): (r: seq<Entry>)
    ensures |r| == |ids|
  {
    seq(|ids|, (i: nat) requires i < |ids| => Entry(ids[i], Classify(events, source, ids[i])))
  }

  ghost function Report(events: map<string, StoredEvent>, source: map<string, string>): seq<Entry> {
    Entries(events, source, Sorted(source.Keys)) + Entries(events, source, Sorted(events.Keys - source.Keys))
  }

  /** How many entries carry each classification that occurs, built up in the order of the entries. */
  function Tally(entries: seq<Entry>): map<Classification, nat> {
    if entries == [] then map[] else
      var counts := Tally(entries[..|entries| - 1]);
      var c := entries[|entries| - 1].classification;
      counts[c := (if c in counts then counts[c] else 0) + 1]
  }

  datatype Reconciled = Reconciled(counts: map<Classification, nat>, entries: seq<Entry>)

  ghost function Reconciliation(env: Env, store: Store, records: seq<AuditRecord>): Result<Reconciled, StoreError> {
    var source := Window(env, records);
    if source.Failure? then Failure(source.error)
    else Success(Reconciled(Tally(Report(store.events, source.value)), Report(store.events, source.value)))
  }

  method ReadWindow(env: Env, records: seq<AuditRecord>) returns (r: Result<map<string, string>, StoreError>)
    ensures r == Window(env, records)
  {
    hide ExtendWindow;
    var source: map<string, string> := map[];
    for k := 0 to |records|
      invariant Window(env, records[..k]) == Success(source)
    {
      assert records[..k + 1][..k] == records[..k];
      var step := ExtendedBy(env, source, records[k]);
      assert Window(env, records[..k + 1]) == step;
      if step.Failure? {
        WindowFailureSticks(env, records, k + 1);
        return step;
      }
      source := step.value;
    }
    assert records[..|records|] == records;
    return Success(source);
  }

  method ExtendedBy(env: Env, source: map<string, string>, record: AuditRecord)
    returns (r: Result<map<string, string>, StoreError>)
    ensures r == ExtendWindow(env, source, record)
  {
    hide EventIdOf, SemanticDigest;
    var id := ReadEventId(record);
    if id.Failure? {
      return Failure(id.error);
    }
    var digest := ComputeDigest(env, record);
    if digest.Failure? {
      return Failure(digest.error);
    }
    if id.value in source {
      var prior := source[id.value];
      if prior != digest.value {
        return Failure(ConflictingContent);
      }
    }
    return Success(source[id.value := digest.value]);
  }

  /** The record may enter a window. */
  predicate Readable(env: Env, record: AuditRecord) {
    EventIdOf(record).Success? && SemanticDigest(env, record).Success?
  }

  /** A window is read exactly when every record can be and any two of one identifier have one digest; it then holds
      just the digests of its records. */
  lemma {:induction false} WindowIff(env: Env, records: seq<AuditRecord>)
    ensures Window(env, records).Success? <==>
            && (forall a :: a in records ==> Readable(env, a))
            && (forall a, b :: a in records && b in records && EventIdOf(a) == EventIdOf(b) ==>
                               SemanticDigest(env, a) == SemanticDigest(env, b))
    ensures Window(env, records).Success? ==>
              && (forall a :: a in records ==> WindowHas(env, records, a))
              && forall id :: id in Window(env, records).value ==>
                              exists a :: a in records && EventIdOf(a) == Success(id)
    decreases |records|
  {
    hide EventIdOf, SemanticDigest;
    if records != [] {
      var init, last := records[..|records| - 1], records[|records| - 1];
      assert records == init + [last];
      WindowIff(env, init);
      assert last in records && forall a :: a in init ==> a in records;
      if Window(env, init).Success? && Readable(env, last) {
        var before, id := Window(env, init).value, EventIdOf(last).value;
        if id in before {
          var a :| a in init && EventIdOf(a) == Success(id);
          assert WindowHas(env, init, a);
        }
        forall a | a in init && EventIdOf(a) == EventIdOf(last)
          ensures id in before && Success(before[id]) == SemanticDigest(env, a)
        {
          assert WindowHas(env, init, a);
        }
        if Window(env, records).Success? {
          forall a | a in records ensures WindowHas(env, records, a) {
            assert a in init ==> WindowHas(env, init, a);
          }
        }
      }
    }
  }

  ghost predicate WindowHas(env: Env, records: seq<AuditRecord>, a: AuditRecord)
    requires Window(env, records).Success?
  {
    var w := Window(env, records).value;
    EventIdOf(a).Success? && EventIdOf(a).value in w && SemanticDigest(env, a) == Success(w[EventIdOf(a).value])
  }

  method Reconcile(store: EchoEventStore, records: seq<AuditRecord>) returns (r: Result<Reconciled, StoreError>)
    ensures r == Reconciliation(store.env, store.Contents(), records)
  {
    hide Window, Classify, Tally;
    var window := ReadWindow(store.env, records);
    if window.Failure? {
      return Failure(window.error);
    }
    var source := window.value;
    var ids := SortKeys(source.Keys);
    var entries := Tabulate(store.events, source, ids);
    var extra := SortKeys(store.events.Keys - source.Keys);
    var rest := Tabulate(store.events, source, extra);
    var counts := CountEntries(entries + rest);
    return Success(Reconciled(counts, entries + rest));
  }

  method CountEntries(entries: seq<Entry>) returns (counts: map<Classification, nat>)
    ensures counts == Tally(entries)
  {
    counts := map[];
    for k := 0 to |entries|
      invariant counts == Tally(entries[..k])
    {
      assert entries[..k + 1][..k] == entries[..k];
      var c := entries[k].classification;
      counts := counts[c := (if c in counts then counts[c] else 0) + 1];
    }
    assert entries[..|entries|] == entries;
  }

  function CountOf(counts: map<Classification, nat>, c: Classification): nat {
    if c in counts then counts[c] else 0
  }

  function Classes(entries: seq<Entry>): (classes: seq<Classification>)
    ensures |classes| == |entries|
  {
    seq(|entries|, (i: nat) requires i < |entries| => entries[i].classification)
  }

  /** The tally holds exactly the classifications that occur, each with the number of its entries. */
  lemma {:induction false} TallyCounts(entries: seq<Entry>)
    ensures forall c :: c in Tally(entries) <==> c in Classes(entries)
    ensures forall c :: CountOf(Tally(entries), c) == multiset(Classes(entries))[c]
    decreases |entries|
  {
    if entries == [] {
    } else {
      var n := |entries| - 1;
      TallyCounts(entries[..n]);
      assert Classes(entries) == Classes(entries[..n]) + [entries[n].classification];
    }
  }

  /** The tally accounts for every entry. */
  lemma {:induction false} TallyAddsUp(entries: seq<Entry>)
    ensures var t := Tally(entries);
            CountOf(t, SaraOnly) + CountOf(t, PayloadMismatch) + CountOf(t, Matched) + CountOf(t, EchoOnly) == |entries|
    decreases |entries|
  {
    if entries == [] {
    } else {
      TallyAddsUp(entries[..|entries| - 1]);
      var c := entries[|entries| - 1].classification;
      assert c.SaraOnly? || c.PayloadMismatch? || c.Matched? || c.EchoOnly?;
    }
  }

  method Tabulate(events: map<string, StoredEvent>, source: map<string, string>, ids: seq<string>)
    returns (entries: seq<Entry>)
    ensures entries == Entries(events, source, ids)
  {
    entries := [];
    for k := 0 to |ids|
      invariant entries == Entries(events, source, ids)[..k]
    {
      var id := ids[k];
      var classification := EchoOnly;
      if id in source {
        if id !in events {
          classification := SaraOnly;
        } else if events[id].digest != source[id] {
          classification := PayloadMismatch;
        } else {
          classification := Matched;
        }
      }
      entries := entries + [Entry(id, classification)];
    }
  }

  lemma {:induction false} WindowFailureSticks(env: Env, records: seq<AuditRecord>, k: nat)
    requires k <= |records| && Window(env, records[..k]).Failure?
    ensures Window(env, records) == Window(env, records[..k])
    decreases |records|
  {
    if k == |records| {
      assert records[..k] == records;
    } else {
      assert records[..|records| - 1][..k] == records[..k];
      WindowFailureSticks(env, records[..|records| - 1], k);
    }
  }

  /** The report names every identifier of either side exactly once and in order within its part. */
  lemma ReportCovers(events: map<string, StoredEvent>, source: map<string, string>)
    ensures forall id :: Named(Report(events, source), id) <==> id in events || id in source
    ensures forall e :: e in Report(events, source) ==> e.classification == Classify(events, source, e.id)
    ensures |Report(events, source)| == |events.Keys + source.Keys|
  {
    hide Classify, Sorted, Entries, Named;
    var first, second := source.Keys, events.Keys - source.Keys;
    EntriesClassified(events, source, Sorted(first));
    EntriesClassified(events, source, Sorted(second));
    SortedElements(first);
    SortedElements(second);
    var report := Report(events, source);
    forall id ensures Named(report, id) <==> id in events || id in source {
      EntriesName(events, source, Sorted(first), id);
      EntriesName(events, source, Sorted(second), id);
      NamedConcat(Entries(events, source, Sorted(first)), Entries(events, source, Sorted(second)), id);
    }
    assert events.Keys + source.Keys == first + second;
  }

  ghost predicate Named(report: seq<Entry>, id: string) {
    exists k :: 0 <= k < |report| && report[k].id == id
  }

  lemma EntriesName(events: map<string, StoredEvent>, source: map<string, string>,
                    ids: seq<string>, id: string)
    ensures Named(Entries(events, source, ids), id) <==> id in ids
  {
    hide Classify;
    if id in ids {
      var k :| 0 <= k < |ids| && ids[k] == id;
      assert Entries(events, source, ids)[k].id == id;
    }
  }

  lemma EntriesClassified(events: map<string, StoredEvent>, source: map<string, string>,
                          ids: seq<string>)
    ensures forall e :: e in Entries(events, source, ids) ==> e.classification == Classify(events, source, e.id)
  {
    hide Classify;
  }

  lemma NamedConcat(a: seq<Entry>, b: seq<Entry>, id: string)
    ensures Named(a + b, id) <==> Named(a, id) || Named(b, id)
  {
    if Named(a, id) {
      var k :| 0 <= k < |a| && a[k].id == id;
      assert (a + b)[k].id == id;
    }
    if Named(b, id) {
      var k :| 0 <= k < |b| && b[k].id == id;
      assert (a + b)[|a| + k].id == id;
    }
  }

  /** Once the deliveries of a consistent history are ingested, any window over that history matches entirely. */
  lemma IngestedWindowMatches(env: Env, ds: seq<Delivery>, meaning: map<string, string>,
                              records: seq<AuditRecord>)
    requires Consistent(env, ds, meaning) && |meaning| <= MAX_EVENTS
    requires forall r :: r in records ==> Delivered(ds, r)
    ensures var report := Reconciliation(env, IngestAll(env, EMPTY, ds), records);
            && report.Success?
            && (forall e :: e in report.value.entries ==> e.classification in {Matched, EchoOnly})
            && SaraOnly !in report.value.counts && PayloadMismatch !in report.value.counts
  {
    var store := IngestAll(env, EMPTY, ds);
    hide Window, Report, Tally, IngestAll, Consistent, Delivered;
    AtLeastOnceIngest(env, ds, meaning);
    WindowMeans(env, ds, meaning, records, store);
    AgreeingReport(store.events, Window(env, records).value);
  }

  /** A window whose digests all agree with stored events reports nothing missing and no mismatch. */
  lemma AgreeingReport(events: map<string, StoredEvent>, source: map<string, string>)
    requires forall id :: id in source ==> id in events && events[id].digest == source[id]
    ensures var report := Report(events, source);
            && (forall e :: e in report ==> e.classification in {Matched, EchoOnly})
            && SaraOnly !in Tally(report) && PayloadMismatch !in Tally(report)
  {
    hide Report, Tally;
    ReportCovers(events, source);
    TallyCounts(Report(events, source));
  }

  ghost predicate Delivered(ds: seq<Delivery>, record: AuditRecord) {
    exists i :: 0 <= i < |ds| && ds[i].record == record
  }

  lemma {:induction false} WindowMeans(env: Env, ds: seq<Delivery>, meaning: map<string, string>,
                                       records: seq<AuditRecord>, store: Store)
    requires Consistent(env, ds, meaning) && Mirrors(store, ds, meaning)
    requires forall r :: r in records ==> Delivered(ds, r)
    ensures var w := Window(env, records);
            w.Success? && forall id :: id in w.value ==> id in store.events && store.events[id].digest == w.value[id]
    decreases |records|
  {
    hide EventIdOf, SemanticDigest;
    if records == [] {
    } else {
      var init, record := records[..|records| - 1], records[|records| - 1];
      WindowMeans(env, ds, meaning, init, store);
      assert record in records;
      var i :| 0 <= i < |ds| && ds[i].record == record;
      assert Means(env, ds[i].record, meaning);
      OccursIn(ds, i, EventIdOf(record).value);
      assert Count(store, EventIdOf(record).value) >= 1;
    }
  }

  lemma {:induction false} OccursIn(ds: seq<Delivery>, i: nat, id: string)
    requires i < |ds| && EventIdOf(ds[i].record) == Success(id)
    ensures Occurrences(ds, id) >= 1
    decreases |ds|
  {
    if i == |ds| - 1 {
    } else {
      OccursIn(ds[..|ds| - 1], i, id);
    }
  }
}
