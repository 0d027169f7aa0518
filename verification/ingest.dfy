/** The location-event ingestion handler of the backend (backend/app/main.py): a per-device
    deduplication store, the `/events/loc` decision and the `/offers/{device_id}` stub.

    The store is the module-level dictionary `device_events`, passed in and returned as a
    value. Timestamps are seconds on one clock, and `datetime.now()` is the parameter `now`.
    A timestamp that carries a UTC offset while `now` does not is the subject of module
    `IngestTz`; here every timestamp is on the server's clock. */
module Ingest {
  import opened Common
  import opened Schemas
  import Decimal

  /** Two events of one device at most this many seconds apart are duplicates (inclusive). */
  const DuplicateWindow: real := 30.0

  /** Events older than this many seconds before `now` are dropped when the device stores again. */
  const RetentionWindow: real := 3600.0

  const DuplicateMessage: string := "Duplicate event detected within 30 seconds"
  const ProcessedMessage: string := "Location event processed successfully"
  const EventIdPrefix: string := "event_"

  /** Distinct events never share a timestamp: the timestamp is the dictionary key. */
  predicate DistinctStamps(es: seq<LocationEvent>) {
    forall i, j | 0 <= i < j < |es| :: es[i].ts != es[j].ts
  }

  /** One device's retained events: a dictionary from timestamp to event, kept as its
      entries in insertion order, which is the order Python iterates it in. */
  type DeviceEvents = es: seq<LocationEvent> | DistinctStamps(es) witness []

  /** `device_events`: the retained events of every device that has stored one. */
  type Store = map<string, DeviceEvents>

  function Abs(x: real): real {
    if x < 0.0 then -x else x
  }

  predicate WithinWindow(a: real, b: real) {
    Abs(a - b) <= DuplicateWindow
  }

  /** The duplicate rule: the same device has a retained timestamp within the window of `ts`. */
  predicate HasNearbyEvent(store: Store, deviceId: string, ts: real) {
    deviceId in store && exists i | 0 <= i < |store[deviceId]| :: WithinWindow(ts, store[deviceId][i].ts)
  }

  /** `is_duplicate_event`: scans the device's timestamps and stops at the first close one. */
  method IsDuplicateEvent(store: Store, deviceId: string, ts: real) returns (dup: bool)
    ensures dup <==> HasNearbyEvent(store, deviceId, ts)
  {
    if deviceId !in store {
      return false;
    }
    var events := store[deviceId];
    var i := 0;
    while i < |events|
      invariant 0 <= i <= |events|
      invariant forall k | 0 <= k < i :: !WithinWindow(ts, events[k].ts)
    {
      if Abs(ts - events[i].ts) <= DuplicateWindow {
        return true;
      }
      i := i + 1;
    }
    return false;
  }

  /** The oldest timestamp a store at time `now` still retains is strictly after this. */
  function Cutoff(now: real): real {
    now - RetentionWindow
  }

  /** `events[event.ts] = event`: replaces the entry with the same timestamp where it stands,
      or appends a new one. */
  function Put(es: DeviceEvents, event: LocationEvent): (r: DeviceEvents)
    ensures event in r
    ensures forall x | x in r && x != event :: x in es && x.ts != event.ts
    ensures forall x | x in es && x.ts != event.ts :: x in r
    ensures (forall k | 0 <= k < |es| :: es[k].ts != event.ts) ==> r == es + [event]
  {
    if es == [] then [event]
    else if es[0].ts == event.ts then
      HeadStampUnique(es);
      PrependDistinct(event, es[1..]);
      [event] + es[1..]
    else
      var rest := Put(es[1..], event);
      HeadStampUnique(es);
      PrependDistinct(es[0], rest);
      [es[0]] + rest
  }

  /** No later entry shares the first entry's timestamp. */
  lemma HeadStampUnique(es: DeviceEvents)
    requires es != []
    ensures forall x | x in es[1..] :: x.ts != es[0].ts
  {
    forall x | x in es[1..]
      ensures x.ts != es[0].ts
    {
      var k :| 0 <= k < |es[1..]| && es[1..][k] == x;
      assert es[k + 1] == x;
    }
  }

  lemma PrependDistinct(e: LocationEvent, es: DeviceEvents)
    requires forall x | x in es :: x.ts != e.ts
    ensures DistinctStamps([e] + es)
  {
    var r := [e] + es;
    forall i, j | 0 <= i < j < |r|
      ensures r[i].ts != r[j].ts
    {
      if i == 0 {
        assert r[j] == es[j - 1];
        assert es[j - 1] in es;
      } else {
        assert r[i] == es[i - 1] && r[j] == es[j - 1];
      }
    }
  }

  /** The dictionary comprehension that keeps the entries stamped strictly after `cutoff`,
      in their order. */
  function KeepAfter(es: DeviceEvents, cutoff: real): (r: DeviceEvents)
    ensures forall x :: x in r <==> x in es && x.ts > cutoff
    ensures |r| <= |es|
  {
    if es == [] then []
    else
      var rest := KeepAfter(es[1..], cutoff);
      HeadStampUnique(es);
      PrependDistinct(es[0], rest);
      if es[0].ts > cutoff then [es[0]] + rest else rest
  }

  lemma {:induction false} KeepAfterAppend(a: DeviceEvents, b: DeviceEvents, cutoff: real)
    requires DistinctStamps(a + b)
    ensures KeepAfter(a + b, cutoff) == KeepAfter(a, cutoff) + KeepAfter(b, cutoff)
  {
    if a == [] {
      assert a + b == b;
    } else {
      assert (a + b)[0] == a[0];
      assert (a + b)[1..] == a[1..] + b;
      KeepAfterAppend(a[1..], b, cutoff);
    }
  }

  lemma {:induction false} KeepAfterAllLater(es: DeviceEvents, cutoff: real)
    requires forall k | 0 <= k < |es| :: es[k].ts > cutoff
    ensures KeepAfter(es, cutoff) == es
  {
    if es != [] {
      KeepAfterAllLater(es[1..], cutoff);
    }
  }

  /** The device's entry before a store: empty when the device has never stored. */
  function EventsOf(store: Store, deviceId: string): DeviceEvents {
    if deviceId in store then store[deviceId] else []
  }

  /** `store_location_event`: insert (overwriting an event with the same timestamp), then drop
      the device's events at or before the cutoff. Other devices are left as they are. */
  function StoreLocationEvent(store: Store, now: real, event: LocationEvent): (s': Store)
    ensures s'.Keys == store.Keys + {event.deviceId}
    ensures forall d | d in store && d != event.deviceId :: s'[d] == store[d]
    ensures forall x | x in s'[event.deviceId] :: x.ts > Cutoff(now)
    ensures event in s'[event.deviceId] <==> event.ts > Cutoff(now)
    ensures forall x | x in s'[event.deviceId] && x != event ::
              x in EventsOf(store, event.deviceId) && x.ts != event.ts
    ensures forall x | x in EventsOf(store, event.deviceId) && x.ts != event.ts && x.ts > Cutoff(now) ::
              x in s'[event.deviceId]
  {
    store[event.deviceId := KeepAfter(Put(EventsOf(store, event.deviceId), event), Cutoff(now))]
  }

  /** Python's `int()` on a float: truncation toward zero. */
  function TruncateTowardZero(x: real): (n: int)
    ensures Abs(n as real) <= Abs(x) < Abs(n as real) + 1.0
    ensures n > 0 ==> x > 0.0
    ensures n < 0 ==> x < 0.0
  {
    if x >= 0.0 then x.Floor else -((-x).Floor)
  }

  /** The event id `event_<device_id>_<int(ts)>`. */
  function EventId(deviceId: string, ts: real): string {
    EventIdPrefix + deviceId + "_" + Decimal.IntToString(TruncateTowardZero(ts))
  }

  function LastIndexOf(s: string, c: char): (r: Option<nat>)
    ensures r.Some? ==> r.value < |s| && s[r.value] == c && c !in s[r.value + 1..]
    ensures r.None? ==> c !in s
  {
    if s == [] then None
    else if s[|s| - 1] == c then Some(|s| - 1)
    else
      var r := LastIndexOf(s[..|s| - 1], c);
      assert r.Some? ==> s[r.value + 1..] == s[..|s| - 1][r.value + 1..] + [s[|s| - 1]];
      assert s == s[..|s| - 1] + [s[|s| - 1]];
      r
  }

  /** Reads a device id and whole second back out of an event id. The device id may itself
      contain `_`; the number is what follows the last one. */
  function DecodeEventId(id: string): Option<(string, int)> {
    if |id| < |EventIdPrefix| || id[..|EventIdPrefix|] != EventIdPrefix then None
    else
      var rest := id[|EventIdPrefix|..];
      match LastIndexOf(rest, '_')
      case None => None
      case Some(i) =>
        match Decimal.ParseInt(rest[i + 1..])
        case None => None
        case Some(n) => Some((rest[..i], n))
  }

  lemma {:induction false} LastIndexOfBeforeSuffix(a: string, c: char, t: string)
    requires c !in t
    ensures LastIndexOf(a + [c] + t, c) == Some(|a|)
    decreases |t|
  {
    var s := a + [c] + t;
    if t != [] {
      assert s[..|s| - 1] == a + [c] + t[..|t| - 1];
      assert s[|s| - 1] == t[|t| - 1];
      LastIndexOfBeforeSuffix(a, c, t[..|t| - 1]);
    }
  }

  /** The event id determines the device and the truncated second it was built from. */
  lemma EventIdRoundTrip(deviceId: string, ts: real)
    ensures DecodeEventId(EventId(deviceId, ts)) == Some((deviceId, TruncateTowardZero(ts)))
  {
    var n := TruncateTowardZero(ts);
    var num := Decimal.IntToString(n);
    var id := EventId(deviceId, ts);
    assert id[..|EventIdPrefix|] == EventIdPrefix;
    var rest := id[|EventIdPrefix|..];
    assert rest == deviceId + ['_'] + num;
    LastIndexOfBeforeSuffix(deviceId, '_', num);
    assert rest[|deviceId| + 1..] == num;
    assert rest[..|deviceId|] == deviceId;
    Decimal.IntToStringRoundTrip(n);
  }

  /** The handler's answer and the store it leaves behind. */
  datatype Handled = Handled(response: LocationEventResponse, store: Store)

  /** `handle_location_event`: reject a duplicate without touching the store; otherwise store
      the event and answer with its id. */
  function HandleLocationEvent(store: Store, now: real, event: LocationEvent): (h: Handled)
    ensures h.response.success <==> !HasNearbyEvent(store, event.deviceId, event.ts)
    ensures !h.response.success ==> && h.store == store
                                    && h.response.eventId == None
                                    && h.response.message == DuplicateMessage
    ensures h.response.success ==> && h.store == StoreLocationEvent(store, now, event)
                                   && h.response.eventId == Some(EventId(event.deviceId, event.ts))
                                   && DecodeEventId(h.response.eventId.value)
                                      == Some((event.deviceId, TruncateTowardZero(event.ts)))
                                   && h.response.message == ProcessedMessage
  {
    if HasNearbyEvent(store, event.deviceId, event.ts) then
      Handled(LocationEventResponse(false, DuplicateMessage, None), store)
    else
      EventIdRoundTrip(event.deviceId, event.ts);
      Handled(LocationEventResponse(true, ProcessedMessage, Some(EventId(event.deviceId, event.ts))),
              StoreLocationEvent(store, now, event))
  }

  /** A device's dedup decision depends only on that device's entry of the store. */
  lemma OtherDevicesNeverCount(s1: Store, s2: Store, deviceId: string, ts: real)
    requires deviceId in s1 <==> deviceId in s2
    requires deviceId in s1 ==> s1[deviceId] == s2[deviceId]
    ensures HasNearbyEvent(s1, deviceId, ts) <==> HasNearbyEvent(s2, deviceId, ts)
  {
  }

  /** Once an event is accepted and still within the retention window, any event of the same
      device within 30 seconds of it is rejected, whatever the clock says later. */
  lemma ResubmissionIsDuplicate(store: Store, now: real, event: LocationEvent, later: real, again: LocationEvent)
    requires HandleLocationEvent(store, now, event).response.success
    requires event.ts > Cutoff(now)
    requires again.deviceId == event.deviceId && WithinWindow(again.ts, event.ts)
    ensures !HandleLocationEvent(HandleLocationEvent(store, now, event).store, later, again).response.success
  {
    var s := HandleLocationEvent(store, now, event).store;
    var i :| 0 <= i < |s[event.deviceId]| && s[event.deviceId][i] == event;
    assert WithinWindow(again.ts, s[event.deviceId][i].ts);
  }

  /** Storing an event at or before the cutoff a second time changes nothing. */
  lemma StoreStaleTwice(store: Store, now: real, event: LocationEvent)
    requires event.ts <= Cutoff(now)
    ensures var once := StoreLocationEvent(store, now, event);
            StoreLocationEvent(once, now, event) == once
  {
    var once := StoreLocationEvent(store, now, event);
    var es := once[event.deviceId];
    PutStaleThenPrune(es, event, Cutoff(now));
    assert EventsOf(once, event.deviceId) == es;
    assert once[event.deviceId := es] == once;
  }

  lemma PutStaleThenPrune(es: DeviceEvents, event: LocationEvent, cutoff: real)
    requires forall x | x in es :: x.ts > cutoff
    requires event.ts <= cutoff
    ensures KeepAfter(Put(es, event), cutoff) == es
  {
    assert forall k | 0 <= k < |es| :: es[k] in es;
    assert Put(es, event) == es + [event];
    KeepAfterAppend(es, [event], cutoff);
    assert KeepAfter([event], cutoff) == [];
    KeepAfterAllLater(es, cutoff);
  }

  /** An accepted event at or before the cutoff is pruned at once: sending it again is accepted
      again, with the same id, and leaves the same store. */
  lemma StaleEventIsNotRemembered(store: Store, now: real, event: LocationEvent)
    requires !HasNearbyEvent(store, event.deviceId, event.ts)
    requires event.ts <= Cutoff(now)
    ensures var first := HandleLocationEvent(store, now, event);
            var second := HandleLocationEvent(first.store, now, event);
            && first.response.success && second.response.success
            && second.response.eventId == first.response.eventId
            && second.store == first.store
  {
    var once := StoreLocationEvent(store, now, event);
    var d := event.deviceId;
    assert !HasNearbyEvent(once, d, event.ts) by {
      forall k | 0 <= k < |once[d]|
        ensures !WithinWindow(event.ts, once[d][k].ts)
      {
        assert once[d][k] in EventsOf(store, d);
      }
    }
    StoreStaleTwice(store, now, event);
  }

  /** Every retained event sits under the device that sent it. */
  predicate WellKeyed(store: Store) {
    forall d, x | d in store && x in store[d] :: x.deviceId == d
  }

  /** No two retained events of one device are within the duplicate window of each other. */
  predicate Separated(store: Store) {
    forall d, i, j | d in store && 0 <= i < j < |store[d]| :: !WithinWindow(store[d][i].ts, store[d][j].ts)
  }

  /** The handler keeps the store well keyed and its devices' timestamps pairwise separated. */
  lemma HandlePreservesInvariants(store: Store, now: real, event: LocationEvent)
    requires WellKeyed(store) && Separated(store)
    ensures WellKeyed(HandleLocationEvent(store, now, event).store)
    ensures Separated(HandleLocationEvent(store, now, event).store)
  {
    var h := HandleLocationEvent(store, now, event);
    if h.response.success {
      var es := h.store[event.deviceId];
      forall i, j | 0 <= i < j < |es|
        ensures !WithinWindow(es[i].ts, es[j].ts)
      {
        SeparatedPair(store, event, es[i], es[j]);
      }
    }
  }

  lemma SeparatedPair(store: Store, event: LocationEvent, x: LocationEvent, y: LocationEvent)
    requires Separated(store) && !HasNearbyEvent(store, event.deviceId, event.ts)
    requires x == event || (x in EventsOf(store, event.deviceId) && x.ts != event.ts)
    requires y == event || (y in EventsOf(store, event.deviceId) && y.ts != event.ts)
    requires x.ts != y.ts
    ensures !WithinWindow(x.ts, y.ts)
  {
    var es := EventsOf(store, event.deviceId);
    if x == event {
      var j :| 0 <= j < |es| && es[j] == y;
    } else if y == event {
      var i :| 0 <= i < |es| && es[i] == x;
    } else {
      var i :| 0 <= i < |es| && es[i] == x;
      var j :| 0 <= j < |es| && es[j] == y;
      if i > j {
        assert !WithinWindow(es[j].ts, es[i].ts);
      }
    }
  }

  /** `get_offers`: a placeholder that echoes the device and offers nothing. */
  function GetOffers(deviceId: string): (r: OffersResponse)
    ensures r.deviceId == deviceId
    ensures r.offers == [] && r.totalCount == |r.offers|
  {
    OffersResponse(deviceId, [], 0)
  }
}
