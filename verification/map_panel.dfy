/** The map panel (frontend/components/MapPanel.tsx) as a state value and the transitions its
    handlers perform: the hex source and its two layers created on load, the colour ramp,
    the hex update guard, the geolocation request and its error messages, the user-location
    and search markers, and teardown.

    The Mapbox map is reduced to what the handlers read and write: whether it has loaded,
    the hex source's data, the layers, and the camera target of the last `flyTo`. Markers are
    values with a fresh id; popups, HTML, animation and timers are not modelled. */
module MapPanel {
  import opened Common
  import opened GeoJson

  const HexesSourceId: string := "hexes"
  const HexesLayerId: string := "hexes-layer"
  const HexesBorderLayerId: string := HexesLayerId + "-border"

  // ---------------------------------------------------------------- colour ramp

  /** The fill colour's `interpolate` stops: density threshold and colour. */
  const ColorStops: seq<(real, string)> := [
    (0.0, "#313695"), (50.0, "#4575b4"), (100.0, "#74add1"), (150.0, "#abd9e9"),
    (200.0, "#e0f3f8"), (250.0, "#ffffcc"), (300.0, "#fee090"), (350.0, "#fdae61"),
    (400.0, "#f46d43"), (450.0, "#d73027"), (500.0, "#a50026")]

  /** The `case` fallback for a feature without a density. */
  const NoDensityColor: string := "#313695"

  const FillOpacity: real := 0.7
  const BorderColor: string := "#ffffff"
  const BorderWidth: real := 1.0
  const BorderOpacity: real := 0.5

  lemma ColorStopsTable()
    ensures |ColorStops| == 11
    ensures forall i | 0 <= i < |ColorStops| :: ColorStops[i].0 == 50.0 * i as real
    ensures forall i, j | 0 <= i < j < |ColorStops| :: ColorStops[i].0 < ColorStops[j].0
    ensures ColorStops[0].1 == "#313695" && ColorStops[5].1 == "#ffffcc" && ColorStops[10].1 == "#a50026"
  {
  }

  /** A colour as the layer's expression produces it: a stop's colour, or a linear blend of
      two neighbouring stops' colours at fraction `t` of the way from the lower to the upper. */
  datatype Paint = Solid(colour: string) | Blend(lower: string, upper: string, t: real)

  /** The index of the last stop at or below `d`, for `d` strictly inside the ramp. */
  function StopBelow(d: real, i: nat): (k: nat)
    requires i < |ColorStops| - 1 && ColorStops[i].0 <= d < ColorStops[|ColorStops| - 1].0
    ensures i <= k < |ColorStops| - 1 && ColorStops[k].0 <= d < ColorStops[k + 1].0
    decreases |ColorStops| - i
  {
    if d < ColorStops[i + 1].0 then i else StopBelow(d, i + 1)
  }

  /** Linear interpolation of the stop table: clamped to the end colours outside the range,
      a stop's own colour at a stop, a blend of the two neighbouring stops in between. */
  function Ramp(d: real): (p: Paint)
    ensures d <= ColorStops[0].0 ==> p == Solid(ColorStops[0].1)
    ensures d >= ColorStops[10].0 ==> p == Solid(ColorStops[10].1)
    ensures p.Blend? ==> 0.0 < p.t < 1.0 && exists k :: BlendsStops(p, d, k)
  {
    if d <= ColorStops[0].0 then Solid(ColorStops[0].1)
    else if d >= ColorStops[10].0 then Solid(ColorStops[10].1)
    else
      var k := StopBelow(d, 0);
      if d == ColorStops[k].0 then Solid(ColorStops[k].1) else BlendBetween(d, k)
  }

  /** `p` blends stop `k` and stop `k + 1`, which bracket `d` strictly, at `d`'s fraction of
      the way between their thresholds. */
  predicate BlendsStops(p: Paint, d: real, k: int) {
    && 0 <= k < |ColorStops| - 1
    && ColorStops[k].0 < d < ColorStops[k + 1].0
    && p == Blend(ColorStops[k].1, ColorStops[k + 1].1, (d - ColorStops[k].0) / (ColorStops[k + 1].0 - ColorStops[k].0))
  }

  /** The blend of stop `k` and stop `k + 1` for a density strictly between them. */
  function BlendBetween(d: real, k: nat): (p: Paint)
    requires k < |ColorStops| - 1 && ColorStops[k].0 < d < ColorStops[k + 1].0
    ensures BlendsStops(p, d, k) && 0.0 < p.t < 1.0
  {
    var lo := ColorStops[k];
    var hi := ColorStops[k + 1];
    Fraction(lo.0, d, hi.0);
    Blend(lo.1, hi.1, (d - lo.0) / (hi.0 - lo.0))
  }

  lemma Fraction(lo: real, d: real, hi: real)
    requires lo < d < hi
    ensures 0.0 < (d - lo) / (hi - lo) < 1.0
  {
    var w := hi - lo;
    var t := (d - lo) / w;
    assert t * w == d - lo;
    assert 0.0 < t;
    var u := (hi - d) / w;
    assert u * w == hi - d;
    assert 0.0 < u;
    assert t + u == ((d - lo) + (hi - d)) / w == w / w == 1.0;
  }

  /** At a stop's threshold the ramp shows exactly that stop's colour. */
  lemma {:induction false} RampAtStop(i: nat)
    requires i < |ColorStops|
    ensures Ramp(ColorStops[i].0) == Solid(ColorStops[i].1)
  {
    ColorStopsTable();
    var d := ColorStops[i].0;
    if 0 < i < 10 {
      var k := StopBelow(d, 0);
      assert 50.0 * k as real <= 50.0 * i as real < 50.0 * (k + 1) as real;
      assert k == i;
    }
  }

  /** The `fill-color` of a feature: the ramp on its density, the fallback without one. */
  function FillColor(props: Properties): (p: Paint)
    ensures props.density.None? ==> p == Solid(NoDensityColor)
    ensures props.density.Some? && props.density.value <= 0.0 ==> p == Solid("#313695")
    ensures props.density.Some? && props.density.value >= 500.0 ==> p == Solid("#a50026")
    ensures props.density == Some(250.0) ==> p == Solid("#ffffcc")
  {
    match props.density
    case None => Solid(NoDensityColor)
    case Some(d) => Ramp(d)
  }

  // ---------------------------------------------------------------- map and markers

  datatype LngLat = LngLat(lng: real, lat: real)

  datatype Camera = Camera(center: LngLat, zoom: real)

  /** A layer's constant paint properties; the fill colour is `FillColor`, per feature. */
  datatype LayerPaint = FillPaint(opacity: real) | LinePaint(colour: string, width: real, opacity: real)

  datatype Layer = Layer(id: string, source: string, paint: LayerPaint)

  const HexFillLayer: Layer := Layer(HexesLayerId, HexesSourceId, FillPaint(FillOpacity))
  const HexBorderLayer: Layer := Layer(HexesBorderLayerId, HexesSourceId, LinePaint(BorderColor, BorderWidth, BorderOpacity))

  /** The map object: load flags, the `hexes` source (absent until load), its layers and the
      camera the last `flyTo` aims at. */
  datatype MapView = MapView(loaded: bool, styleLoaded: bool, hexes: Option<FeatureCollection>,
                             layers: seq<Layer>, camera: Camera)

  datatype MarkerKind = UserLocation | SearchResult

  datatype Marker = Marker(id: nat, kind: MarkerKind, at: LngLat)

  /** The component: the map ref, the marker on the map, the two marker refs and the
      location error shown under the map. */
  datatype Panel = Panel(view: Option<MapView>, onMap: set<Marker>,
                         userMarker: Option<Marker>, searchMarker: Option<Marker>,
                         nextMarker: nat, locationError: Option<string>)

  function Ref(p: Panel, kind: MarkerKind): Option<Marker> {
    match kind
    case UserLocation => p.userMarker
    case SearchResult => p.searchMarker
  }

  /** Every marker on the map is the one its kind's ref holds, and marker ids are fresh. */
  predicate MarkersTracked(p: Panel) {
    && (forall m | m in p.onMap :: Ref(p, m.kind) == Some(m) && m.id < p.nextMarker)
    && (p.userMarker.Some? ==> p.userMarker.value.kind == UserLocation)
    && (p.searchMarker.Some? ==> p.searchMarker.value.kind == SearchResult)
  }

  lemma AtMostOneMarkerPerKind(p: Panel, a: Marker, b: Marker)
    requires MarkersTracked(p) && a in p.onMap && b in p.onMap && a.kind == b.kind
    ensures a == b
  {
  }

  /** The map as constructed on mount: centre (-74.5, 40), zoom 9, nothing loaded. */
  const MountedPanel: Panel :=
    Panel(Some(MapView(false, false, None, [], Camera(LngLat(-74.5, 40.0), 9.0))), {}, None, None, 0, None)

  /** Remove the previous marker of `kind`, put a new one at `at`, and fly there at `zoom`. */
  function PlaceMarker(p: Panel, kind: MarkerKind, at: LngLat, zoom: real): (p': Panel)
    requires p.view.Some?
    ensures p'.view == Some(p.view.value.(camera := Camera(at, zoom)))
    ensures Ref(p', kind).Some? && Ref(p', kind).value in p'.onMap && Ref(p', kind).value.at == at
    ensures MarkersTracked(p) ==> forall m | m in p'.onMap && m.kind == kind :: m == Ref(p', kind).value
    ensures MarkersTracked(p) ==> forall m: Marker | m.kind != kind :: m in p'.onMap <==> m in p.onMap
    ensures forall k | k != kind :: Ref(p', k) == Ref(p, k)
    ensures p'.locationError == p.locationError
    ensures MarkersTracked(p) ==> MarkersTracked(p')
  {
    var m := Marker(p.nextMarker, kind, at);
    var rest := if Ref(p, kind).Some? then p.onMap - {Ref(p, kind).value} else p.onMap;
    var p1 := p.(view := Some(p.view.value.(camera := Camera(at, zoom))),
                 onMap := rest + {m}, nextMarker := p.nextMarker + 1);
    match kind
    case UserLocation => p1.(userMarker := Some(m))
    case SearchResult => p1.(searchMarker := Some(m))
  }

  // ---------------------------------------------------------------- load, update, teardown

  /** The map's `load` event: the style is in place, the empty `hexes` source is added, then
      the fill layer and the border layer over it. */
  function OnLoad(p: Panel): (p': Panel)
    ensures p.view.None? ==> p' == p
    ensures p.view.Some? ==> (&& p'.view.Some? && p'.view.value.loaded && p'.view.value.styleLoaded
                            && p'.view.value.hexes == Some(EmptyCollection)
                            && p'.view.value.layers == p.view.value.layers + [HexFillLayer, HexBorderLayer]
                            && HexFillLayer.paint == FillPaint(0.7) && HexBorderLayer.paint == LinePaint("#ffffff", 1.0, 0.5)
                            && HexFillLayer.source == HexBorderLayer.source == "hexes")
    ensures p'.onMap == p.onMap && p'.locationError == p.locationError
  {
    match p.view
    case None => p
    case Some(m) =>
      p.(view := Some(m.(loaded := true, styleLoaded := true, hexes := Some(EmptyCollection),
                         layers := m.layers + [HexFillLayer, HexBorderLayer])))
  }

  /** `updateHexes`: replace the source's data only when the map exists, its style has loaded
      and the source is there; otherwise nothing happens. */
  function UpdateHexes(p: Panel, data: FeatureCollection): (p': Panel)
    ensures (p.view.Some? && p.view.value.styleLoaded && p.view.value.hexes.Some?)
              ==> p'.view.Some? && p'.view.value.hexes == Some(data) && p' == p.(view := p'.view)
    ensures !(p.view.Some? && p.view.value.styleLoaded && p.view.value.hexes.Some?) ==> p' == p
    ensures p'.view.Some? ==> p.view.Some? && p'.view.value.layers == p.view.value.layers
  {
    if p.view.Some? && p.view.value.styleLoaded && p.view.value.hexes.Some? then
      p.(view := Some(p.view.value.(hexes := Some(data))))
    else p
  }

  lemma UpdateBeforeLoadIsDropped(data: FeatureCollection)
    ensures UpdateHexes(MountedPanel, data) == MountedPanel
    ensures UpdateHexes(OnLoad(MountedPanel), data).view.value.hexes == Some(data)
  {
  }

  /** Unmount: remove the markers the refs hold, then the map. The source calls `remove()` on
      the map but leaves `map.current` pointing at the removed instance; `view := None` stands
      for "no usable map", which is the same thing once the component is gone. */
  function Teardown(p: Panel): (p': Panel)
    ensures p'.view.None?
    ensures forall m | m in p'.onMap :: m in p.onMap && Some(m) != p.userMarker && Some(m) != p.searchMarker
    ensures MarkersTracked(p) ==> p'.onMap == {}
  {
    var withoutUser := if p.userMarker.Some? then p.onMap - {p.userMarker.value} else p.onMap;
    var withoutSearch := if p.searchMarker.Some? then withoutUser - {p.searchMarker.value} else withoutUser;
    p.(view := None, onMap := withoutSearch)
  }

  // ---------------------------------------------------------------- geolocation

  /** The W3C Geolocation API's error codes. */
  const PermissionDenied: int := 1
  const PositionUnavailable: int := 2
  const Timeout: int := 3

  const UnsupportedMessage: string := "Geolocation is not supported by this browser."

  function GeolocationErrorMessage(code: int): (msg: string)
    ensures code == PermissionDenied <==> msg == "Location access denied by user."
    ensures code == PositionUnavailable <==> msg == "Location information is unavailable."
    ensures code == Timeout <==> msg == "Location request timed out."
    ensures code !in {PermissionDenied, PositionUnavailable, Timeout} <==> msg == "Unable to get your location."
  {
    if code == PermissionDenied then "Location access denied by user."
    else if code == PositionUnavailable then "Location information is unavailable."
    else if code == Timeout then "Location request timed out."
    else "Unable to get your location."
  }

  datatype PositionOptions = PositionOptions(enableHighAccuracy: bool, timeoutMs: nat, maximumAgeMs: nat)

  const RequestOptions: PositionOptions := PositionOptions(true, 10000, 60000)

  /** `getCurrentLocation`: without geolocation support only the error is set; otherwise
      the error is cleared and a position request with `RequestOptions` goes out. */
  function GetCurrentLocation(p: Panel, supported: bool): (r: (Panel, Option<PositionOptions>))
    ensures !supported <==> r.1.None?
    ensures !supported ==> r.0 == p.(locationError := Some(UnsupportedMessage))
    ensures supported ==> r.0 == p.(locationError := None) && r.1 == Some(RequestOptions)
  {
    if !supported then (p.(locationError := Some(UnsupportedMessage)), None)
    else (p.(locationError := None), Some(RequestOptions))
  }

  const UserLocationZoom: real := 15.0
  const SearchZoom: real := 14.0

  /** The position callback: with a map, replace the user marker and fly to it at zoom 15. */
  function OnPositionSuccess(p: Panel, latitude: real, longitude: real): (p': Panel)
    ensures p.view.None? ==> p' == p
    ensures p.view.Some? ==> (&& p'.userMarker.Some? && p'.userMarker.value.at == LngLat(longitude, latitude)
                            && p'.view.Some? && p'.view.value.camera == Camera(LngLat(longitude, latitude), UserLocationZoom)
                            && p'.searchMarker == p.searchMarker
                            && (MarkersTracked(p) ==> forall m | m in p'.onMap && m.kind == UserLocation :: Some(m) == p'.userMarker))
    ensures MarkersTracked(p) ==> MarkersTracked(p')
  {
    if p.view.None? then p else PlaceMarker(p, UserLocation, LngLat(longitude, latitude), UserLocationZoom)
  }

  /** The error callback: the code's message becomes the location error; nothing else moves. */
  function OnPositionError(p: Panel, code: int): (p': Panel)
    ensures p'.locationError.Some? && p' == p.(locationError := p'.locationError)
    ensures p'.locationError.value == GeolocationErrorMessage(code)
  {
    p.(locationError := Some(GeolocationErrorMessage(code)))
  }

  // ---------------------------------------------------------------- search

  /** `performSearch`: with a map, replace the search marker at `[lng, lat]` and fly there at
      zoom 14. */
  function PerformSearch(p: Panel, coordinates: LngLat): (p': Panel)
    ensures p.view.None? ==> p' == p
    ensures p.view.Some? ==> (&& p'.searchMarker.Some? && p'.searchMarker.value.at == coordinates
                            && p'.view.Some? && p'.view.value.camera == Camera(coordinates, SearchZoom)
                            && p'.userMarker == p.userMarker
                            && (MarkersTracked(p) ==> forall m | m in p'.onMap && m.kind == SearchResult :: Some(m) == p'.searchMarker))
    ensures MarkersTracked(p) ==> MarkersTracked(p')
  {
    if p.view.None? then p else PlaceMarker(p, SearchResult, coordinates, SearchZoom)
  }

  /** What `searchLocation` does now: nothing without a map, the search at once when the map
      and its style have loaded, and otherwise one `performSearch` scheduled for later. */
  datatype SearchPlan = NoMap | SearchedNow(panel: Panel) | RetryLater

  function SearchLocation(p: Panel, coordinates: LngLat, name: string): (r: SearchPlan)
    ensures p.view.None? <==> r.NoMap?
    ensures r.SearchedNow? <==> p.view.Some? && p.view.value.loaded && p.view.value.styleLoaded
    ensures r.SearchedNow? ==> r.panel.searchMarker.Some? && r.panel.searchMarker.value.at == coordinates
                               && r.panel.view.Some? && r.panel.view.value.camera.zoom == SearchZoom
  {
    if p.view.None? then NoMap
    else if p.view.value.loaded && p.view.value.styleLoaded then SearchedNow(PerformSearch(p, coordinates))
    else RetryLater
  }

  /** The two kinds of marker are independent: a search leaves the user marker where it is,
      and a new position leaves the search marker where it is. */
  lemma {:induction false} MarkerKindsIndependent(p: Panel, lat: real, lng: real, c: LngLat)
    requires p.view.Some? && MarkersTracked(p)
    ensures var p1 := PerformSearch(OnPositionSuccess(p, lat, lng), c);
            && p1.userMarker == OnPositionSuccess(p, lat, lng).userMarker
            && p1.userMarker.value in p1.onMap
            && |set m | m in p1.onMap && m.kind == UserLocation| == 1
            && |set m | m in p1.onMap && m.kind == SearchResult| == 1
  {
    var p0 := OnPositionSuccess(p, lat, lng);
    var p1 := PerformSearch(p0, c);
    var u := p1.userMarker.value;
    var s := p1.searchMarker.value;
    assert u.kind == UserLocation;
    assert u in p0.onMap;
    assert u in p1.onMap;
    assert (set m | m in p1.onMap && m.kind == UserLocation) == {u};
    assert (set m | m in p1.onMap && m.kind == SearchResult) == {s};
  }
}
