/** Geographic helpers of the backend (backend/app/geo.py): the H3 cell of a position, the
    stubbed affluent-area and weather lookups, and the offer-trigger decision.

    The H3 library is not part of this model: `latlng_to_cell` is the parameter `cell`, an
    arbitrary function from latitude, longitude and resolution to a cell id. */
module Geo {
  import opened Common

  /** The H3 library's `latlng_to_cell`, rendered as a string. */
  type CellIndexer = (real, real, int) -> string

  const DefaultResolution: int := 9
  const KnightsbridgeHex: string := "8928308280fffff"
  const SecondAffluentHex: string := "8928308281fffff"
  const AffluentHexes: seq<string> := [KnightsbridgeHex, SecondAffluentHex]
  const Drizzle: string := "drizzle"

  /** `latlon_to_h3(lat, lon, res=9)`: `None` stands for the omitted resolution argument. */
  function LatLonToH3(cell: CellIndexer, lat: real, lon: real, res: Option<int>): (h: string)
    ensures res.None? ==> h == cell(lat, lon, 9)
    ensures res.Some? ==> h == cell(lat, lon, res.value)
  {
    cell(lat, lon, res.GetOr(DefaultResolution))
  }

  /** `is_affluent`: membership in the fixed list of stub cells. */
  function IsAffluent(h3Id: string): (b: bool)
    ensures b <==> h3Id == "8928308280fffff" || h3Id == "8928308281fffff"
  {
    h3Id in AffluentHexes
  }

  /** `current_weather`: a stub that reports drizzle everywhere. */
  function CurrentWeather(lat: real, lon: real): (w: string)
    ensures w == "drizzle"
  {
    Drizzle
  }

  /** A task `handle_location` would hand to the worker queue. */
  datatype Task = SendOfferSms(deviceId: string, lat: real, lon: real)

  /** The cell `handle_location` looked at, whether its trigger condition held, and the tasks it
      enqueued (the enqueue is still a commented-out TODO, so none). */
  datatype Decision = Decision(hexId: string, triggered: bool, enqueued: seq<Task>)

  /** `handle_location`. */
  function HandleLocation(cell: CellIndexer, deviceId: string, lat: real, lon: real): (d: Decision)
    ensures d.hexId == cell(lat, lon, 9)
    ensures d.triggered <==> cell(lat, lon, 9) in {"8928308280fffff", "8928308281fffff"}
    ensures d.enqueued == []
  {
    var hexId := LatLonToH3(cell, lat, lon, None);
    Decision(hexId, IsAffluent(hexId) && CurrentWeather(lat, lon) == Drizzle, [])
  }

  /** Because the weather stub is constant, two positions in the same cell always get the same
      decision, whatever else differs between them. */
  lemma TriggerDependsOnlyOnCell(cell: CellIndexer, d1: string, lat1: real, lon1: real,
                                 d2: string, lat2: real, lon2: real)
    requires cell(lat1, lon1, 9) == cell(lat2, lon2, 9)
    ensures HandleLocation(cell, d1, lat1, lon1).triggered == HandleLocation(cell, d2, lat2, lon2).triggered
  {
  }
}
