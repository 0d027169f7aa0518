/** The ingestion handler of backend/app/main.py when timestamps carry a UTC offset.

    Pydantic parses `"2024-05-01T12:00:00Z"` into an offset-aware datetime, while
    `datetime.now()` is offset-naive. Python refuses to subtract or order an aware and a naive
    datetime (TypeError); it compares them for equality as unequal. This module models the
    handler with that distinction kept, exactly as written (`HandleAsWritten`), and the
    corrected handler that keys and compares every timestamp by the instant it denotes
    (`HandleNormalized`). Read on one clock, both agree with `Ingest.HandleLocationEvent`. */
module IngestTz {
  import opened Common
  import opened Schemas
  import Ingest

  /** A Python datetime: the instant it denotes, in seconds, and whether it carries an offset. */
  datatype Stamp = Stamp(secs: real, aware: bool)

  /** A stored entry: the dictionary key (the event's datetime) and the event. */
  datatype Entry = Entry(key: Stamp, event: LocationEvent)

  /** A dictionary never holds two entries under equal keys. */
  predicate DistinctKeys(es: seq<Entry>) {
    forall i, j | 0 <= i < j < |es| :: es[i].key != es[j].key
  }

  /** One device's dictionary from datetime to event, as its entries in insertion order. */
  type Entries = es: seq<Entry> | DistinctKeys(es) witness []

  /** `device_events` with datetime keys. */
  type TzStore = map<string, Entries>

  /** What the client receives: the response body, or the HTTP 500 the `except` branch raises. */
  datatype Outcome = Responded(response: LocationEventResponse) | ServerError(detail: string)

  /** Python's TypeError texts: `aware - naive` is refused by the subtraction, `aware > naive`
      by the ordering. */
  const SubtractErrorText: string := "can't subtract offset-naive and offset-aware datetimes"
  const CompareErrorText: string := "can't compare offset-naive and offset-aware datetimes"

  const ErrorPrefix: string := "Failed to process location event: "
  const SubtractDetail: string := ErrorPrefix + SubtractErrorText
  const CompareDetail: string := ErrorPrefix + CompareErrorText

  datatype TzHandled = TzHandled(outcome: Outcome, store: TzStore)

  function EntriesOf(store: TzStore, deviceId: string): Entries {
    if deviceId in store then store[deviceId] else []
  }

  /** Some key denotes an instant within the duplicate window of `t`. */
  predicate NearbyKey(es: seq<Entry>, t: real) {
    exists k | 0 <= k < |es| :: Ingest.WithinWindow(t, es[k].key.secs)
  }

  predicate HasKey(es: seq<Entry>, key: Stamp) {
    exists k | 0 <= k < |es| :: es[k].key == key
  }

  /** The scan of `is_duplicate_event`: `timestamp - event_ts` raises on the first key whose
      awareness differs, unless a close key came first. */
  function ScanAsWritten(entries: seq<Entry>, ts: Stamp): (r: Result<bool, string>)
    ensures (forall k | 0 <= k < |entries| :: entries[k].key.aware == ts.aware) ==> r.Ok?
    ensures r.Ok? ==> r.value == NearbyKey(entries, ts.secs)
    ensures r.Err? ==> && r.error == SubtractErrorText
                       && exists k | 0 <= k < |entries| :: entries[k].key.aware != ts.aware
  {
    if entries == [] then Ok(false)
    else if entries[0].key.aware != ts.aware then Err(SubtractErrorText)
    else if Ingest.WithinWindow(ts.secs, entries[0].key.secs) then Ok(true)
    else
      var r := ScanAsWritten(entries[1..], ts);
      assert forall k | 1 <= k < |entries| :: entries[k] == entries[1..][k - 1];
      r
  }

  /** `events[ts] = event`: keys are equal only when both instant and awareness agree. An entry
      under an equal key is replaced where it stands; otherwise the entry is appended. */
  function PutAsWritten(entries: Entries, e: Entry): (r: Entries)
    ensures |r| == |entries| + (if HasKey(entries, e.key) then 0 else 1)
    ensures forall k | 0 <= k < |entries| :: r[k] == (if entries[k].key == e.key then e else entries[k])
    ensures !HasKey(entries, e.key) ==> r == entries + [e]
    ensures e in r
  {
    if HasKey(entries, e.key) then
      var i := KeyIndex(entries, e.key);
      assert forall k | 0 <= k < |entries| && k != i :: entries[k].key != e.key;
      entries[i := e]
    else
      entries + [e]
  }

  /** Where the key sits. */
  function KeyIndex(es: seq<Entry>, key: Stamp): (i: nat)
    requires HasKey(es, key)
    ensures i < |es| && es[i].key == key
  {
    if es[0].key == key then 0
    else
      assert HasKey(es[1..], key) by {
        var k :| 0 <= k < |es| && es[k].key == key;
        assert es[1..][k - 1] == es[k];
      }
      1 + KeyIndex(es[1..], key)
  }

  /** No later entry shares the first entry's key. */
  lemma HeadKeyUnique(es: Entries)
    requires es != []
    ensures forall k | 0 <= k < |es[1..]| :: es[1..][k].key != es[0].key
  {
    forall k | 0 <= k < |es[1..]|
      ensures es[1..][k].key != es[0].key
    {
      assert es[1..][k] == es[k + 1];
    }
  }

  lemma PrependDistinctKeys(e: Entry, es: Entries)
    requires forall k | 0 <= k < |es| :: es[k].key != e.key
    ensures DistinctKeys([e] + es)
  {
    var r := [e] + es;
    forall i, j | 0 <= i < j < |r|
      ensures r[i].key != r[j].key
    {
      assert r[j] == es[j - 1];
      if i > 0 {
        assert r[i] == es[i - 1];
      }
    }
  }

  /** The entries stamped strictly after `cutoff`, in their order: what the clean-up
      comprehension keeps when every comparison succeeds. */
  function KeepLater(es: Entries, cutoff: real): (r: Entries)
    ensures forall x :: x in r <==> x in es && x.key.secs > cutoff
    ensures |r| <= |es|
  {
    if es == [] then []
    else
      var rest := KeepLater(es[1..], cutoff);
      if es[0].key.secs > cutoff then
        HeadKeyUnique(es);
        assert forall x | x in rest :: x in es[1..];
        forall k | 0 <= k < |rest|
          ensures rest[k].key != es[0].key
        {
          assert rest[k] in es[1..];
        }
        PrependDistinctKeys(es[0], rest);
        [es[0]] + rest
      else rest
  }

  /** The clean-up comprehension `ts > cutoff_time` with a naive cutoff: it raises on the first
      aware key, and otherwise keeps exactly the entries after the cutoff. */
  function PruneAsWritten(entries: Entries, cutoff: real): (r: Result<Entries, string>)
    ensures r.Err? <==> exists k | 0 <= k < |entries| :: entries[k].key.aware
    ensures r.Err? ==> r.error == CompareErrorText
    ensures r.Ok? ==> r.value == KeepLater(entries, cutoff)
  {
    if entries == [] then Ok([])
    else if entries[0].key.aware then Err(CompareErrorText)
    else
      var rest := PruneAsWritten(entries[1..], cutoff);
      assert forall k | 1 <= k < |entries| :: entries[k] == entries[1..][k - 1];
      match rest
      case Err(m) => Err(m)
      case Ok(_) => Ok(KeepLater(entries, cutoff))
  }

  /** `handle_location_event` as written. The scan fails before anything is stored; a failure of
      the clean-up happens after the insertion, so the inserted entry stays while the client
      receives the 500. */
  function HandleAsWritten(store: TzStore, now: real, event: LocationEvent, ts: Stamp): (h: TzHandled)
    requires ts.secs == event.ts
    ensures h.outcome.Responded? && !h.outcome.response.success ==> h.store == store
    ensures h.outcome.Responded? && h.outcome.response.success ==>
              h.outcome.response.eventId == Some(Ingest.EventId(event.deviceId, event.ts))
    ensures h.outcome.ServerError? ==> h.outcome.detail == SubtractDetail || h.outcome.detail == CompareDetail
    ensures h.outcome.ServerError? && h.outcome.detail != CompareDetail ==> h.store == store
    ensures h.outcome.ServerError? && h.outcome.detail != SubtractDetail ==>
              event.deviceId in h.store && Entry(ts, event) in h.store[event.deviceId]
  {
    var d := event.deviceId;
    var prior := EntriesOf(store, d);
    match ScanAsWritten(prior, ts)
    case Err(m) => TzHandled(ServerError(ErrorPrefix + m), store)
    case Ok(true) =>
      TzHandled(Responded(LocationEventResponse(false, Ingest.DuplicateMessage, None)), store)
    case Ok(false) =>
      var inserted := PutAsWritten(prior, Entry(ts, event));
      match PruneAsWritten(inserted, Ingest.Cutoff(now))
      case Err(m) => TzHandled(ServerError(ErrorPrefix + m), store[d := inserted])
      case Ok(kept) =>
        TzHandled(Responded(LocationEventResponse(true, Ingest.ProcessedMessage,
                                                  Some(Ingest.EventId(d, event.ts)))),
                  store[d := kept])
  }

  /** For any store in which the device has only aware stamps, a new, non-duplicate aware event
      is answered with the clean-up's 500 and yet is recorded, and nothing of the device is
      ever pruned. */
  lemma AwareEventFailsButIsStored(store: TzStore, now: real, event: LocationEvent, ts: Stamp)
    requires ts.secs == event.ts && ts.aware
    requires forall x | x in EntriesOf(store, event.deviceId) :: x.key.aware
    requires !NearbyKey(EntriesOf(store, event.deviceId), ts.secs)
    ensures var h := HandleAsWritten(store, now, event, ts);
            && h.outcome == ServerError(CompareDetail)
            && Entry(ts, event) in h.store[event.deviceId]
            && forall x | x in EntriesOf(store, event.deviceId) && x.key != ts :: x in h.store[event.deviceId]
  {
    var d := event.deviceId;
    var prior := EntriesOf(store, d);
    assert forall k | 0 <= k < |prior| :: prior[k] in prior;
    var inserted := PutAsWritten(prior, Entry(ts, event));
    var i :| 0 <= i < |inserted| && inserted[i] == Entry(ts, event);
    assert inserted[i].key.aware;
    forall x | x in prior && x.key != ts
      ensures x in inserted
    {
      var k :| 0 <= k < |prior| && prior[k] == x;
      assert inserted[k] == x;
    }
  }

  /** The subtraction's failure: the device holds a naive stamp and an event arrives in UTC an
      hour later. The client gets the 500 and nothing is stored. */
  lemma OffsetAfterNaiveCounterexample()
    ensures var e0 := LocationEvent("dev-1", 51.5, -0.16, 1714564800.0);
            var e1 := LocationEvent("dev-1", 51.5, -0.16, 1714568400.0);
            var store: TzStore := map["dev-1" := [Entry(Stamp(1714564800.0, false), e0)]];
            var h := HandleAsWritten(store, 1714568405.0, e1, Stamp(1714568400.0, true));
            h.outcome == ServerError(SubtractDetail) && h.store == store
  {
    var e0 := LocationEvent("dev-1", 51.5, -0.16, 1714564800.0);
    var ts := Stamp(1714568400.0, true);
    assert ScanAsWritten([Entry(Stamp(1714564800.0, false), e0)], ts) == Err(SubtractErrorText);
  }

  /** The concrete run of the clean-up's failure: a device's first event, stamped in UTC, gets a
      500; the client retries and is told the event is a duplicate. Neither reply reports
      success. */
  lemma FirstAwareEventCounterexample()
    ensures var e := LocationEvent("dev-1", 51.5, -0.16, 1714564800.0);
            var ts := Stamp(1714564800.0, true);
            var first := HandleAsWritten(map[], 1714564805.0, e, ts);
            var retry := HandleAsWritten(first.store, 1714564810.0, e, ts);
            && first.outcome == ServerError(CompareDetail)
            && first.store == map["dev-1" := [Entry(ts, e)]]
            && retry.outcome == Responded(LocationEventResponse(false, Ingest.DuplicateMessage, None))
  {
    var e := LocationEvent("dev-1", 51.5, -0.16, 1714564800.0);
    var ts := Stamp(1714564800.0, true);
    assert PutAsWritten([], Entry(ts, e)) == [Entry(ts, e)];
    assert PruneAsWritten([Entry(ts, e)], Ingest.Cutoff(1714564805.0)) == Err(CompareErrorText);
    assert ScanAsWritten([Entry(ts, e)], ts) == Ok(true);
  }

  /** With naive stamps only (the server clock's frame) the handler as written never fails. */
  lemma NaiveStampsNeverFail(store: TzStore, now: real, event: LocationEvent, ts: Stamp)
    requires ts.secs == event.ts && !ts.aware
    requires forall x | x in EntriesOf(store, event.deviceId) :: !x.key.aware
    ensures HandleAsWritten(store, now, event, ts).outcome.Responded?
  {
    var prior := EntriesOf(store, event.deviceId);
    assert forall k | 0 <= k < |prior| :: prior[k] in prior;
    var inserted := PutAsWritten(prior, Entry(ts, event));
    assert forall k | 0 <= k < |inserted| :: !inserted[k].key.aware by {
      forall k | 0 <= k < |inserted|
        ensures !inserted[k].key.aware
      {
        if k == |prior| {
          assert inserted == prior + [Entry(ts, event)];
        }
      }
    }
  }

  /** The corrected key: the UTC instant the datetime denotes, whether or not the client sent
      an offset. */
  function Normalize(ts: Stamp): (n: Stamp)
    ensures n.secs == ts.secs && n.aware
  {
    Stamp(ts.secs, true)
  }

  /** The corrected handler: every key is the normalized instant, and the window and the
      cut-off compare instants (with `now` taken on the same clock), so no TypeError can
      arise. */
  function HandleNormalized(store: TzStore, now: real, event: LocationEvent, ts: Stamp): (h: TzHandled)
    requires ts.secs == event.ts
    ensures h.outcome.Responded?
    ensures h.outcome.response.success <==> !NearbyKey(EntriesOf(store, event.deviceId), ts.secs)
    ensures !h.outcome.response.success ==>
              h.store == store && h.outcome.response == LocationEventResponse(false, Ingest.DuplicateMessage, None)
    ensures h.outcome.response.success ==>
              && h.outcome.response.eventId == Some(Ingest.EventId(event.deviceId, event.ts))
              && h.store.Keys == store.Keys + {event.deviceId}
              && (Entry(Normalize(ts), event) in h.store[event.deviceId] <==> ts.secs > Ingest.Cutoff(now))
              && forall x | x in h.store[event.deviceId] :: x.key.secs > Ingest.Cutoff(now)
    ensures forall d | d in store && d != event.deviceId :: d in h.store && h.store[d] == store[d]
  {
    var d := event.deviceId;
    var prior := EntriesOf(store, d);
    if NearbyKey(prior, ts.secs) then
      TzHandled(Responded(LocationEventResponse(false, Ingest.DuplicateMessage, None)), store)
    else
      var kept := KeepLater(PutAsWritten(prior, Entry(Normalize(ts), event)), Ingest.Cutoff(now));
      TzHandled(Responded(LocationEventResponse(true, Ingest.ProcessedMessage, Some(Ingest.EventId(d, event.ts)))),
                store[d := kept])
  }

  /** Every entry is keyed by its own event's timestamp. */
  predicate KeyedByEvent(es: seq<Entry>) {
    forall x | x in es :: x.key.secs == x.event.ts
  }

  /** The events of a device's entries, in order. */
  function Events(es: seq<Entry>): (r: seq<LocationEvent>)
    ensures |r| == |es| && forall k | 0 <= k < |es| :: r[k] == es[k].event
  {
    seq(|es|, k requires 0 <= k < |es| => es[k].event)
  }

  /** A store that reads as an `Ingest.Store` on one clock: keys are their events' instants, and
      no device holds one instant twice. */
  predicate Projectable(store: TzStore) {
    forall d | d in store :: KeyedByEvent(store[d]) && Ingest.DistinctStamps(Events(store[d]))
  }

  /** The store with each datetime key read as the instant it denotes. */
  function Project(store: TzStore): (p: Ingest.Store)
    requires Projectable(store)
    ensures p.Keys == store.Keys
    ensures forall d | d in store :: p[d] == Events(store[d])
  {
    map d | d in store :: Events(store[d])
  }

  /** The window test over datetime keys is the window test over the projected events. */
  lemma NearbyProjects(store: TzStore, d: string, t: real)
    requires Projectable(store)
    ensures NearbyKey(EntriesOf(store, d), t) <==> Ingest.HasNearbyEvent(Project(store), d, t)
  {
    if d in store {
      var es := store[d];
      forall k | 0 <= k < |es|
        ensures Project(store)[d][k].ts == es[k].key.secs
      {
        assert es[k] in es;
      }
    }
  }

  /** Filtering the entries by instant filters their events the way `Ingest.KeepAfter` does. */
  lemma {:induction false} KeepLaterProjects(es: Entries, cutoff: real)
    requires KeyedByEvent(es) && Ingest.DistinctStamps(Events(es))
    ensures KeyedByEvent(KeepLater(es, cutoff))
    ensures Events(KeepLater(es, cutoff)) == Ingest.KeepAfter(Events(es), cutoff)
  {
    if es != [] {
      EventsTail(es);
      KeepLaterProjects(es[1..], cutoff);
      assert es[0] in es;
      if es[0].key.secs > cutoff {
        EventsCons(es[0], KeepLater(es[1..], cutoff));
      }
    }
  }

  lemma EventsTail(es: seq<Entry>)
    requires es != []
    ensures Events(es[1..]) == Events(es)[1..]
  {
  }

  lemma EventsCons(x: Entry, es: seq<Entry>)
    ensures Events([x] + es) == [x.event] + Events(es)
  {
  }

  /** An entry whose instant is outside the window of every key is appended, and its event is
      what `Ingest.Put` adds to the projected events. */
  lemma AppendProjects(prior: Entries, e: Entry)
    requires KeyedByEvent(prior) && Ingest.DistinctStamps(Events(prior))
    requires e.key.secs == e.event.ts && !NearbyKey(prior, e.key.secs)
    ensures KeyedByEvent(prior + [e]) && Ingest.DistinctStamps(Events(prior + [e]))
    ensures Events(prior + [e]) == Ingest.Put(Events(prior), e.event)
  {
    forall k | 0 <= k < |prior|
      ensures prior[k].key.secs != e.key.secs && prior[k].event.ts != e.event.ts
    {
      assert prior[k] in prior;
      assert !Ingest.WithinWindow(e.key.secs, prior[k].key.secs);
    }
    assert Events(prior + [e]) == Events(prior) + [e.event];
  }

  /** An entry whose instant is outside the window of every key clashes with no key. */
  lemma AppendWithoutClash(prior: Entries, e: Entry)
    requires !NearbyKey(prior, e.key.secs)
    ensures PutAsWritten(prior, e) == prior + [e]
  {
    forall k | 0 <= k < |prior|
      ensures prior[k].key != e.key
    {
      assert !Ingest.WithinWindow(e.key.secs, prior[k].key.secs);
    }
  }

  /** Replacing one device's entries replaces its projected events. */
  lemma UpdateProjects(store: TzStore, d: string, es: Entries)
    requires Projectable(store) && KeyedByEvent(es) && Ingest.DistinctStamps(Events(es))
    ensures Projectable(store[d := es])
    ensures Project(store[d := es]) == Project(store)[d := Events(es)]
  {
  }

  /** Storing an accepted entry keyed by its event's instant agrees, on the projection, with
      `Ingest.StoreLocationEvent`. */
  lemma StoreProjects(store: TzStore, now: real, event: LocationEvent, e: Entry)
    requires Projectable(store)
    requires e.event == event && e.key.secs == event.ts
    requires !NearbyKey(EntriesOf(store, event.deviceId), event.ts)
    ensures var kept := KeepLater(PutAsWritten(EntriesOf(store, event.deviceId), e), Ingest.Cutoff(now));
            && Projectable(store[event.deviceId := kept])
            && Project(store[event.deviceId := kept]) == Ingest.StoreLocationEvent(Project(store), now, event)
  {
    var d := event.deviceId;
    var prior := EntriesOf(store, d);
    assert Ingest.EventsOf(Project(store), d) == Events(prior);
    AppendWithoutClash(prior, e);
    AppendProjects(prior, e);
    KeepLaterProjects(prior + [e], Ingest.Cutoff(now));
    UpdateProjects(store, d, KeepLater(prior + [e], Ingest.Cutoff(now)));
  }

  /** The correction is the one-clock handler: on the instants, its reply and its store are
      those of `Ingest.HandleLocationEvent`, whether or not the client sent an offset. */
  lemma NormalizedAgreesWithIngest(store: TzStore, now: real, event: LocationEvent, ts: Stamp)
    requires ts.secs == event.ts && Projectable(store)
    ensures var h := HandleNormalized(store, now, event, ts);
            var g := Ingest.HandleLocationEvent(Project(store), now, event);
            && h.outcome == Responded(g.response)
            && Projectable(h.store) && Project(h.store) == g.store
  {
    NearbyProjects(store, event.deviceId, ts.secs);
    if !NearbyKey(EntriesOf(store, event.deviceId), ts.secs) {
      StoreProjects(store, now, event, Entry(Normalize(ts), event));
    }
  }

  /** Where the device's stamps and the new one are all naive, the handler as written is the
      one-clock handler: on the instants, its reply and its store are those of
      `Ingest.HandleLocationEvent`. */
  lemma AsWrittenAgreesOnNaiveStores(store: TzStore, now: real, event: LocationEvent, ts: Stamp)
    requires ts.secs == event.ts && !ts.aware && Projectable(store)
    requires forall x | x in EntriesOf(store, event.deviceId) :: !x.key.aware
    ensures var h := HandleAsWritten(store, now, event, ts);
            var g := Ingest.HandleLocationEvent(Project(store), now, event);
            && h.outcome == Responded(g.response)
            && Projectable(h.store) && Project(h.store) == g.store
  {
    var prior := EntriesOf(store, event.deviceId);
    assert forall k | 0 <= k < |prior| :: prior[k] in prior;
    NearbyProjects(store, event.deviceId, ts.secs);
    if !NearbyKey(prior, ts.secs) {
      assert KeyedByEvent(prior) && Ingest.DistinctStamps(Events(prior));
      AppendWithoutClash(prior, Entry(ts, event));
      NaiveAppendPrunes(prior, Entry(ts, event), Ingest.Cutoff(now));
      StoreProjects(store, now, event, Entry(ts, event));
    }
  }

  /** Appending a naive entry to naive entries leaves nothing for the clean-up to raise on. */
  lemma NaiveAppendPrunes(prior: Entries, e: Entry, cutoff: real)
    requires forall x | x in prior :: !x.key.aware
    requires !e.key.aware && DistinctKeys(prior + [e])
    ensures PruneAsWritten(prior + [e], cutoff) == Ok(KeepLater(prior + [e], cutoff))
  {
    var es: Entries := prior + [e];
    forall k | 0 <= k < |es|
      ensures !es[k].key.aware
    {
      if k < |prior| {
        assert es[k] == prior[k] && prior[k] in prior;
      }
    }
  }

  /** The run of `FirstAwareEventCounterexample` under the correction: the first event is
      accepted with its id, and the retry is a duplicate of a stored event. */
  lemma FirstAwareEventCorrected()
    ensures var e := LocationEvent("dev-1", 51.5, -0.16, 1714564800.0);
            var ts := Stamp(1714564800.0, true);
            var first := HandleNormalized(map[], 1714564805.0, e, ts);
            var retry := HandleNormalized(first.store, 1714564810.0, e, ts);
            && first.outcome == Responded(LocationEventResponse(true, Ingest.ProcessedMessage,
                                                                Some(Ingest.EventId("dev-1", 1714564800.0))))
            && retry.outcome == Responded(LocationEventResponse(false, Ingest.DuplicateMessage, None))
  {
    var e := LocationEvent("dev-1", 51.5, -0.16, 1714564800.0);
    var ts := Stamp(1714564800.0, true);
    var first := HandleNormalized(map[], 1714564805.0, e, ts);
    assert !NearbyKey(EntriesOf(map[], "dev-1"), ts.secs);
    var es := first.store["dev-1"];
    var k :| 0 <= k < |es| && es[k] == Entry(Normalize(ts), e);
    assert Ingest.WithinWindow(ts.secs, es[k].key.secs);
  }
}
