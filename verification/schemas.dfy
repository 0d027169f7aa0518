/** The request and response bodies of the ingestion service (backend/app/schemas.py) and
    the validation Pydantic performs when it builds them from decoded JSON.

    A raw body gives each field as `Option`: `None` when the key is absent (or, for an
    `Optional` field, null). Validation either yields the typed record or the list of every
    field error, in field-declaration order, as Pydantic reports them. Timestamps are
    seconds on one clock; type coercion (strings to numbers, ISO text to datetimes) happens
    before this model and is not part of it. */
module Schemas {
  import opened Common
  import Decimal

  /** What a field failed: it was absent, or it broke its `ge` or `le` bound. */
  datatype Violation = Missing | GreaterThanEqual(bound: real) | LessThanEqual(bound: real)

  /** A Pydantic error: the path to the offending field and what it broke. */
  datatype FieldError = FieldError(loc: seq<string>, violation: Violation)

  predicate HasErrorAt(errors: seq<FieldError>, loc: seq<string>) {
    exists k | 0 <= k < |errors| :: errors[k].loc == loc
  }

  lemma HasErrorAtConcat(a: seq<FieldError>, b: seq<FieldError>)
    ensures forall loc :: HasErrorAt(a + b, loc) <==> HasErrorAt(a, loc) || HasErrorAt(b, loc)
  {
    forall loc
      ensures HasErrorAt(a + b, loc) <==> HasErrorAt(a, loc) || HasErrorAt(b, loc)
    {
      if HasErrorAt(a + b, loc) {
        var k :| 0 <= k < |a + b| && (a + b)[k].loc == loc;
        if k >= |a| {
          assert b[k - |a|].loc == loc;
        }
      }
      if HasErrorAt(a, loc) {
        var k :| 0 <= k < |a| && a[k].loc == loc;
        assert (a + b)[k].loc == loc;
      }
      if HasErrorAt(b, loc) {
        var k :| 0 <= k < |b| && b[k].loc == loc;
        assert (a + b)[|a| + k].loc == loc;
      }
    }
  }

  const MinLatitude: real := -90.0
  const MaxLatitude: real := 90.0
  const MinLongitude: real := -180.0
  const MaxLongitude: real := 180.0
  const MinDiscount: real := 0.0
  const MaxDiscount: real := 100.0

  datatype LocationEvent = LocationEvent(deviceId: string, lat: real, lon: real, ts: real)

  datatype LocationEventResponse = LocationEventResponse(success: bool, message: string, eventId: Option<string>)

  datatype Offer = Offer(id: string, title: string, description: string, discount: Option<real>, validUntil: real)

  datatype OffersResponse = OffersResponse(deviceId: string, offers: seq<Offer>, totalCount: int)

  datatype RawLocationEvent = RawLocationEvent(deviceId: Option<string>, lat: Option<real>, lon: Option<real>, ts: Option<real>)

  datatype RawLocationEventResponse = RawLocationEventResponse(success: Option<bool>, message: Option<string>, eventId: Option<string>)

  datatype RawOffer = RawOffer(id: Option<string>, title: Option<string>, description: Option<string>, discount: Option<real>, validUntil: Option<real>)

  datatype RawOffersResponse = RawOffersResponse(deviceId: Option<string>, offers: Option<seq<RawOffer>>, totalCount: Option<int>)

  predicate ValidLocationEvent(e: LocationEvent) {
    && MinLatitude <= e.lat <= MaxLatitude
    && MinLongitude <= e.lon <= MaxLongitude
  }

  predicate ValidOffer(o: Offer) {
    o.discount.Some? ==> MinDiscount <= o.discount.value <= MaxDiscount
  }

  /** The error a required field without a value produces. */
  function RequiredErrors<T>(loc: string, v: Option<T>): (errs: seq<FieldError>)
    ensures errs == [] <==> v.Some?
    ensures forall k | 0 <= k < |errs| :: errs[k] == FieldError([loc], Missing)
    ensures forall l :: HasErrorAt(errs, l) <==> l == [loc] && v.None?
  {
    var errs := if v.Some? then [] else [FieldError([loc], Missing)];
    assert errs != [] ==> errs[0].loc == [loc];
    errs
  }

  /** The error a number field with `ge=lo, le=hi` produces; `required` says whether absence is an error. */
  function BoundErrors(loc: string, v: Option<real>, required: bool, lo: real, hi: real): (errs: seq<FieldError>)
    ensures errs == [] <==> (v.None? && !required) || (v.Some? && lo <= v.value <= hi)
    ensures forall k | 0 <= k < |errs| :: errs[k].loc == [loc]
    ensures forall l :: HasErrorAt(errs, l) <==> l == [loc] && errs != []
  {
    var errs :=
      match v
      case None => if required then [FieldError([loc], Missing)] else []
      case Some(x) =>
        if x < lo then [FieldError([loc], GreaterThanEqual(lo))]
        else if x > hi then [FieldError([loc], LessThanEqual(hi))]
        else [];
    assert errs != [] ==> errs[0].loc == [loc];
    errs
  }

  /** `LocationEvent(**body)`. */
  function ParseLocationEvent(raw: RawLocationEvent): (r: Result<LocationEvent, seq<FieldError>>)
    ensures r.Ok? <==>
              && raw.deviceId.Some? && raw.ts.Some?
              && raw.lat.Some? && MinLatitude <= raw.lat.value <= MaxLatitude
              && raw.lon.Some? && MinLongitude <= raw.lon.value <= MaxLongitude
    ensures r.Ok? ==> ValidLocationEvent(r.value)
                      && r.value == LocationEvent(raw.deviceId.value, raw.lat.value, raw.lon.value, raw.ts.value)
    ensures r.Err? ==> && r.error != []
                       && (HasErrorAt(r.error, ["device_id"]) <==> raw.deviceId.None?)
                       && (HasErrorAt(r.error, ["ts"]) <==> raw.ts.None?)
                       && (HasErrorAt(r.error, ["lat"]) <==> !(raw.lat.Some? && MinLatitude <= raw.lat.value <= MaxLatitude))
                       && (HasErrorAt(r.error, ["lon"]) <==> !(raw.lon.Some? && MinLongitude <= raw.lon.value <= MaxLongitude))
  {
    var errs := LocationEventErrors(raw);
    LocationEventErrorsAt(raw);
    if errs == [] then
      Ok(LocationEvent(raw.deviceId.value, raw.lat.value, raw.lon.value, raw.ts.value))
    else
      Err(errs)
  }

  /** Every error of a location event, in field-declaration order. */
  function LocationEventErrors(raw: RawLocationEvent): seq<FieldError> {
    RequiredErrors("device_id", raw.deviceId)
    + BoundErrors("lat", raw.lat, true, MinLatitude, MaxLatitude)
    + BoundErrors("lon", raw.lon, true, MinLongitude, MaxLongitude)
    + RequiredErrors("ts", raw.ts)
  }

  lemma LocationEventErrorsAt(raw: RawLocationEvent)
    ensures var errs := LocationEventErrors(raw);
            && (errs == [] <==>
                  && raw.deviceId.Some? && raw.ts.Some?
                  && raw.lat.Some? && MinLatitude <= raw.lat.value <= MaxLatitude
                  && raw.lon.Some? && MinLongitude <= raw.lon.value <= MaxLongitude)
            && (HasErrorAt(errs, ["device_id"]) <==> raw.deviceId.None?)
            && (HasErrorAt(errs, ["ts"]) <==> raw.ts.None?)
            && (HasErrorAt(errs, ["lat"]) <==> !(raw.lat.Some? && MinLatitude <= raw.lat.value <= MaxLatitude))
            && (HasErrorAt(errs, ["lon"]) <==> !(raw.lon.Some? && MinLongitude <= raw.lon.value <= MaxLongitude))
  {
    var e1 := RequiredErrors("device_id", raw.deviceId);
    var e2 := BoundErrors("lat", raw.lat, true, MinLatitude, MaxLatitude);
    var e3 := BoundErrors("lon", raw.lon, true, MinLongitude, MaxLongitude);
    var e4 := RequiredErrors("ts", raw.ts);
    HasErrorAtConcat(e1, e2);
    HasErrorAtConcat(e1 + e2, e3);
    HasErrorAtConcat(e1 + e2 + e3, e4);
    assert ["device_id"] != ["lat"] && ["device_id"] != ["lon"] && ["device_id"] != ["ts"];
    assert ["lat"] != ["lon"] && ["lat"] != ["ts"] && ["lon"] != ["ts"];
  }

  /** `LocationEventResponse(**body)`: `event_id` may be left out and is then `None`. */
  function ParseLocationEventResponse(raw: RawLocationEventResponse): (r: Result<LocationEventResponse, seq<FieldError>>)
    ensures r.Ok? <==> raw.success.Some? && raw.message.Some?
    ensures r.Ok? ==> && r.value.success == raw.success.value
                      && r.value.message == raw.message.value
                      && r.value.eventId == raw.eventId
    ensures r.Err? ==> && (HasErrorAt(r.error, ["success"]) <==> raw.success.None?)
                       && (HasErrorAt(r.error, ["message"]) <==> raw.message.None?)
                       && !HasErrorAt(r.error, ["event_id"])
  {
    var e1 := RequiredErrors("success", raw.success);
    var e2 := RequiredErrors("message", raw.message);
    var errs := e1 + e2;
    if errs == [] then Ok(LocationEventResponse(raw.success.value, raw.message.value, raw.eventId))
    else
      HasErrorAtConcat(e1, e2);
      Err(errs)
  }

  /** `Offer(**body)`: `discount` is optional and, when given, a percentage in [0, 100]. */
  function ParseOffer(raw: RawOffer): (r: Result<Offer, seq<FieldError>>)
    ensures r.Ok? <==>
              && raw.id.Some? && raw.title.Some? && raw.description.Some? && raw.validUntil.Some?
              && (raw.discount.Some? ==> MinDiscount <= raw.discount.value <= MaxDiscount)
    ensures r.Ok? ==> ValidOffer(r.value)
                      && r.value == Offer(raw.id.value, raw.title.value, raw.description.value, raw.discount, raw.validUntil.value)
    ensures r.Err? ==> && r.error != []
                       && (HasErrorAt(r.error, ["discount"]) <==>
                             raw.discount.Some? && !(MinDiscount <= raw.discount.value <= MaxDiscount))
  {
    var e1 := RequiredErrors("id", raw.id);
    var e2 := RequiredErrors("title", raw.title);
    var e3 := RequiredErrors("description", raw.description);
    var e4 := BoundErrors("discount", raw.discount, false, MinDiscount, MaxDiscount);
    var e5 := RequiredErrors("valid_until", raw.validUntil);
    var errs := e1 + e2 + e3 + e4 + e5;
    if errs == [] then
      Ok(Offer(raw.id.value, raw.title.value, raw.description.value, raw.discount, raw.validUntil.value))
    else
      HasErrorAtConcat(e1, e2);
      HasErrorAtConcat(e1 + e2, e3);
      HasErrorAtConcat(e1 + e2 + e3, e4);
      HasErrorAtConcat(e1 + e2 + e3 + e4, e5);
      Err(errs)
  }

  /** Prefixes each error's path with `offers` and the offer's position, as Pydantic nests them. */
  function Nest(i: nat, errs: seq<FieldError>): (r: seq<FieldError>)
    ensures |r| == |errs|
    ensures forall k | 0 <= k < |r| :: r[k] == FieldError(["offers", Decimal.IntToString(i)] + errs[k].loc, errs[k].violation)
  {
    if errs == [] then []
    else [FieldError(["offers", Decimal.IntToString(i)] + errs[0].loc, errs[0].violation)] + Nest(i, errs[1..])
  }

  /** Validates the offers from position `from` on. */
  function ParseOffers(raws: seq<RawOffer>, from: nat): (r: Result<seq<Offer>, seq<FieldError>>)
    requires from <= |raws|
    ensures r.Ok? <==> forall k | from <= k < |raws| :: ParseOffer(raws[k]).Ok?
    ensures r.Ok? ==> |r.value| == |raws| - from
                      && forall k | 0 <= k < |r.value| :: r.value[k] == ParseOffer(raws[from + k]).value
    ensures r.Err? ==> r.error != []
    decreases |raws| - from
  {
    if from == |raws| then Ok([])
    else
      var head := ParseOffer(raws[from]);
      var tail := ParseOffers(raws, from + 1);
      if head.Err? then
        var e := head.error;
        assert !ParseOffer(raws[from]).Ok?;
        if tail.Err? then Err(Nest(from, e) + tail.error) else Err(Nest(from, e))
      else if tail.Err? then
        Err(tail.error)
      else
        var os := [head.value] + tail.value;
        assert forall k | 0 < k < |os| :: os[k] == tail.value[k - 1];
        Ok(os)
  }

  /** `OffersResponse(**body)`: `offers` defaults to the empty list and `total_count` to 0. */
  function ParseOffersResponse(raw: RawOffersResponse): (r: Result<OffersResponse, seq<FieldError>>)
    ensures r.Ok? <==> raw.deviceId.Some? && (raw.offers.Some? ==> ParseOffers(raw.offers.value, 0).Ok?)
    ensures r.Ok? ==> && r.value.deviceId == raw.deviceId.value
                      && (raw.offers.None? ==> r.value.offers == [])
                      && (raw.offers.Some? ==> |r.value.offers| == |raw.offers.value|
                                               && forall k | 0 <= k < |raw.offers.value| ::
                                                    r.value.offers[k] == ParseOffer(raw.offers.value[k]).value)
                      && (raw.totalCount.None? ==> r.value.totalCount == 0)
                      && (raw.totalCount.Some? ==> r.value.totalCount == raw.totalCount.value)
                      && (forall k | 0 <= k < |r.value.offers| :: ValidOffer(r.value.offers[k]))
  {
    var e1 := RequiredErrors("device_id", raw.deviceId);
    var offers := if raw.offers.Some? then ParseOffers(raw.offers.value, 0) else Ok([]);
    var e2 := if offers.Err? then offers.error else [];
    var errs := e1 + e2;
    if errs == [] then
      Ok(OffersResponse(raw.deviceId.value, offers.value, raw.totalCount.GetOr(0)))
    else Err(errs)
  }
}
