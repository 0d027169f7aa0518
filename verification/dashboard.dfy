/** The dashboard page (frontend/pages/index.tsx): the seed pings, the encoder that turns each
    ping into a hexagon feature, the density jitter of the refresh interval, and the three
    statistics shown in the side panel.

    `Math.PI`, `Math.cos` and `Math.sin` are the fields of a `Trig` parameter and every
    `Math.random()` draw is an input; arithmetic is on reals. */
module Dashboard {
  import opened Common
  import opened GeoJson
  import MapPanel

  datatype Ping = Ping(lat: real, lng: real, density: real, hexId: string)

  const FakePings: seq<Ping> := [
    Ping(40.7128, -74.0060, 150.0, "hex_001"),
    Ping(40.7589, -73.9851, 200.0, "hex_002"),
    Ping(40.7505, -73.9934, 300.0, "hex_003"),
    Ping(40.7829, -73.9654, 100.0, "hex_004"),
    Ping(40.7549, -73.9840, 250.0, "hex_005"),
    Ping(40.7614, -73.9776, 180.0, "hex_006"),
    Ping(40.7484, -73.9857, 220.0, "hex_007"),
    Ping(40.7505, -73.9934, 175.0, "hex_008"),
    Ping(40.7589, -73.9851, 190.0, "hex_009"),
    Ping(40.7128, -74.0060, 140.0, "hex_010")]

  // ---------------------------------------------------------------- hexagon encoder

  datatype Trig = Trig(pi: real, cos: real -> real, sin: real -> real)

  const HexSize: real := 0.01

  /** Corner `i` of the hexagon around `(lng, lat)`: angle `i * PI / 3`. */
  function Corner(trig: Trig, p: Ping, i: nat): (pos: Position)
    ensures |pos| == 2
  {
    var angle := (i as real * trig.pi) / 3.0;
    [p.lng + HexSize * trig.cos(angle), p.lat + HexSize * trig.sin(angle)]
  }

  /** The six corners in order, then the first again to close the ring. */
  method HexRing(trig: Trig, p: Ping) returns (ring: seq<Position>)
    ensures |ring| == 7 && ClosedRing(ring)
    ensures forall i | 0 <= i < 6 :: ring[i] == Corner(trig, p, i)
  {
    ring := [];
    var i := 0;
    while i < 6
      invariant 0 <= i <= 6 && |ring| == i
      invariant forall j | 0 <= j < i :: ring[j] == Corner(trig, p, j)
    {
      ring := ring + [Corner(trig, p, i)];
      i := i + 1;
    }
    ring := ring + [ring[0]];
  }

  /** What the map and the tooltip read back from a feature: the ping it was drawn for. */
  function PingOf(f: Feature): (p: Option<Ping>)
    ensures p.Some? <==> f.properties.density.Some? && |f.properties.coordinates| == 2
  {
    var props := f.properties;
    if props.density.Some? && |props.coordinates| == 2 then
      Some(Ping(props.coordinates[1], props.coordinates[0], props.density.value, props.hexId))
    else None
  }

  /** A feature drawn for `p`: a single closed seven-point ring whose corners surround `p`. */
  predicate DrawnFor(trig: Trig, f: Feature, p: Ping) {
    && |f.geometry.coordinates| == 1
    && |f.geometry.coordinates[0]| == 7
    && ClosedRing(f.geometry.coordinates[0])
    && (forall i | 0 <= i < 6 :: f.geometry.coordinates[0][i] == Corner(trig, p, i))
    && f.properties.coordinates == [p.lng, p.lat]
  }

  /** `generateHexGeoJson`: one feature per ping, in order; each carries its ping's density
      and hex id unchanged and `[lng, lat]` as its coordinates, so the ping reads back. */
  method GenerateHexGeoJson(trig: Trig, pings: seq<Ping>) returns (fc: FeatureCollection)
    ensures |fc.features| == |pings|
    ensures forall i | 0 <= i < |pings| :: DrawnFor(trig, fc.features[i], pings[i])
    ensures forall i | 0 <= i < |pings| :: PingOf(fc.features[i]) == Some(pings[i])
  {
    var features: seq<Feature> := [];
    var i := 0;
    while i < |pings|
      invariant 0 <= i <= |pings| && |features| == i
      invariant forall j | 0 <= j < i :: DrawnFor(trig, features[j], pings[j])
      invariant forall j | 0 <= j < i :: PingOf(features[j]) == Some(pings[j])
    {
      var p := pings[i];
      var ring := HexRing(trig, p);
      var props := Properties(Some(p.density), p.hexId, [p.lng, p.lat]);
      features := features + [Feature(Polygon([ring]), props)];
      i := i + 1;
    }
    fc := FeatureCollection(features);
  }

  // ---------------------------------------------------------------- jitter

  /** `Math.max(0, density + (r - 0.5) * 50)` for one draw `r`. */
  function JitterDensity(density: real, r: real): (d: real)
    ensures d >= 0.0
    ensures d == 0.0 || d == density + (r - 0.5) * 50.0
    ensures density + (r - 0.5) * 50.0 >= 0.0 ==> d == density + (r - 0.5) * 50.0
  {
    var v := density + (r - 0.5) * 50.0;
    if v >= 0.0 then v else 0.0
  }

  /** A draw of `Math.random()`: in `[0, 1)`. */
  predicate UnitDraw(r: real) {
    0.0 <= r < 1.0
  }

  /** One refresh: every ping keeps its place, position and hex id; only the density moves,
      by the ping's own draw. */
  function Jitter(pings: seq<Ping>, draws: seq<real>): (next: seq<Ping>)
    requires |draws| == |pings|
    ensures |next| == |pings|
    ensures forall i | 0 <= i < |pings| ::
              && next[i].lat == pings[i].lat && next[i].lng == pings[i].lng
              && next[i].hexId == pings[i].hexId
              && next[i].density == JitterDensity(pings[i].density, draws[i])
  {
    seq(|pings|, i requires 0 <= i < |pings| => pings[i].(density := JitterDensity(pings[i].density, draws[i])))
  }

  /** A draw moves a density by less than 25 either way, and never below zero. */
  lemma JitterStep(density: real, r: real)
    requires UnitDraw(r) && density >= 0.0
    ensures JitterDensity(density, r) < density + 25.0
    ensures JitterDensity(density, r) >= density - 25.0
  {
  }

  /** Densities are never negative after a refresh, whatever they were before. */
  predicate Nonnegative(pings: seq<Ping>) {
    forall i | 0 <= i < |pings| :: pings[i].density >= 0.0
  }

  /** Refreshes one after another: the hex ids and positions of the seed survive every round
      and the densities stay non-negative. */
  function Refreshes(pings: seq<Ping>, rounds: seq<seq<real>>): (last: seq<Ping>)
    requires forall k | 0 <= k < |rounds| :: |rounds[k]| == |pings|
    ensures |last| == |pings|
    ensures forall i | 0 <= i < |pings| ::
              last[i].hexId == pings[i].hexId && last[i].lat == pings[i].lat && last[i].lng == pings[i].lng
    ensures |rounds| > 0 ==> Nonnegative(last)
    decreases |rounds|
  {
    if rounds == [] then pings
    else Refreshes(Jitter(pings, rounds[0]), rounds[1..])
  }

  /** After `n` refreshes a density lies within 25 per round of where it started. */
  lemma {:induction false} RefreshesDrift(pings: seq<Ping>, rounds: seq<seq<real>>, i: nat)
    requires forall k | 0 <= k < |rounds| :: |rounds[k]| == |pings|
    requires forall k, j | 0 <= k < |rounds| && 0 <= j < |rounds[k]| :: UnitDraw(rounds[k][j])
    requires Nonnegative(pings) && i < |pings|
    ensures Refreshes(pings, rounds)[i].density <= pings[i].density + 25.0 * |rounds| as real
    ensures Refreshes(pings, rounds)[i].density >= pings[i].density - 25.0 * |rounds| as real
    decreases |rounds|
  {
    if rounds != [] {
      var next := Jitter(pings, rounds[0]);
      JitterStep(pings[i].density, rounds[0][i]);
      assert forall k | 0 <= k < |rounds[1..]| :: rounds[1..][k] == rounds[k + 1];
      RefreshesDrift(next, rounds[1..], i);
    }
  }

  // ---------------------------------------------------------------- statistics

  function SumDensity(pings: seq<Ping>): real {
    if pings == [] then 0.0 else pings[0].density + SumDensity(pings[1..])
  }

  /** `Math.round`: the nearest integer, halves rounded up. */
  function Round(x: real): (n: int)
    ensures n as real - 0.5 <= x < n as real + 0.5
  {
    (x + 0.5).Floor
  }

  /** Total Hexes: the number of pings. */
  function TotalHexes(pings: seq<Ping>): nat {
    |pings|
  }

  /** Avg Density: the rounded mean; `None` when there are no pings (the page shows NaN). */
  function AvgDensity(pings: seq<Ping>): (avg: Option<int>)
    ensures avg.None? <==> pings == []
    ensures avg.Some? ==> avg.value as real - 0.5 <= SumDensity(pings) / |pings| as real < avg.value as real + 0.5
  {
    if pings == [] then None else Some(Round(SumDensity(pings) / |pings| as real))
  }

  /** Max Density: the largest density; `None` when there are no pings (the page shows
      -Infinity). */
  function MaxDensity(pings: seq<Ping>): (m: Option<real>)
    ensures m.None? <==> pings == []
    ensures m.Some? ==> (forall i | 0 <= i < |pings| :: pings[i].density <= m.value)
    ensures m.Some? ==> (exists i | 0 <= i < |pings| :: pings[i].density == m.value)
  {
    if pings == [] then None
    else
      var rest := MaxDensity(pings[1..]);
      if rest.None? || pings[0].density >= rest.value then Some(pings[0].density)
      else
        assert exists i | 1 <= i < |pings| :: pings[i].density == rest.value by {
          var j :| 0 <= j < |pings[1..]| && pings[1..][j].density == rest.value;
          assert pings[j + 1].density == rest.value;
        }
        Some(rest.value)
  }

  /** With non-negative densities the mean and the maximum are non-negative too, and the mean
      never exceeds the maximum by more than rounding. */
  lemma {:induction false} SumBounded(pings: seq<Ping>, top: real)
    requires forall i | 0 <= i < |pings| :: 0.0 <= pings[i].density <= top
    ensures 0.0 <= SumDensity(pings) <= |pings| as real * top
  {
    if pings != [] {
      assert forall i | 0 <= i < |pings[1..]| :: pings[1..][i] == pings[i + 1];
      SumBounded(pings[1..], top);
    }
  }

  lemma AverageWithinMaximum(pings: seq<Ping>)
    requires pings != [] && Nonnegative(pings)
    ensures AvgDensity(pings).value >= 0
    ensures AvgDensity(pings).value as real <= MaxDensity(pings).value + 0.5
  {
    var top := MaxDensity(pings).value;
    SumBounded(pings, top);
    MeanWithin(SumDensity(pings), |pings| as real, top);
  }

  lemma MeanWithin(sum: real, n: real, top: real)
    requires n > 0.0 && 0.0 <= sum <= n * top
    ensures 0.0 <= sum / n <= top
  {
    var mean := sum / n;
    assert mean * n == sum;
  }

  /** The seed: 1905 in all, so the mean 190.5 shows as 191; the largest is 300. */
  lemma SeedStatistics()
    ensures TotalHexes(FakePings) == 10
    ensures SumDensity(FakePings) == 1905.0
    ensures AvgDensity(FakePings) == Some(191)
    ensures MaxDensity(FakePings) == Some(300.0)
  {
    SeedSum();
    SeedMax();
    SeedAverage();
  }

  lemma SeedAverage()
    ensures AvgDensity(FakePings) == Some(191)
  {
    SeedAverageOf(FakePings);
  }

  lemma SeedAverageOf(pings: seq<Ping>)
    requires SeedDensities(pings)
    ensures AvgDensity(pings) == Some(191)
  {
    SeedSumOf(pings);
    assert 1905.0 / 10.0 == 190.5;
    assert Round(190.5) == 191;
  }

  lemma SeedSum()
    ensures SumDensity(FakePings) == 1905.0
  {
    SeedSumOf(FakePings);
  }

  lemma SeedMax()
    ensures MaxDensity(FakePings) == Some(300.0)
  {
    SeedMaxOf(FakePings);
  }

  /** The seed's densities, stated on a variable so that the solver unfolds the sums one step
      at a time. */
  predicate SeedDensities(pings: seq<Ping>) {
    && |pings| == 10
    && pings[0].density == 150.0 && pings[1].density == 200.0 && pings[2].density == 300.0 && pings[3].density == 100.0 && pings[4].density == 250.0 && pings[5].density == 180.0 && pings[6].density == 220.0 && pings[7].density == 175.0 && pings[8].density == 190.0 && pings[9].density == 140.0
  }

  lemma SeedSumOf(pings: seq<Ping>)
    requires SeedDensities(pings)
    ensures SumDensity(pings) == 1905.0
  {
    assert pings[10..] == [];
    assert SumDensity(pings[9..]) == 140.0;
    assert SumDensity(pings[8..]) == 330.0;
    assert SumDensity(pings[7..]) == 505.0;
    assert SumDensity(pings[6..]) == 725.0;
    assert SumDensity(pings[5..]) == 905.0;
    assert SumDensity(pings[4..]) == 1155.0;
    assert SumDensity(pings[3..]) == 1255.0;
    assert SumDensity(pings[2..]) == 1555.0;
    assert SumDensity(pings[1..]) == 1755.0;
    assert SumDensity(pings[0..]) == 1905.0;
    assert pings[0..] == pings;
  }

  lemma SeedMaxOf(pings: seq<Ping>)
    requires SeedDensities(pings)
    ensures MaxDensity(pings) == Some(300.0)
  {
    SeedMaxOfTail(pings);
    assert MaxDensity(pings[4..]) == Some(250.0);
    assert MaxDensity(pings[3..]) == Some(250.0);
    assert MaxDensity(pings[2..]) == Some(300.0);
    assert MaxDensity(pings[1..]) == Some(300.0);
    assert MaxDensity(pings[0..]) == Some(300.0);
    assert pings[0..] == pings;
  }

  lemma SeedMaxOfTail(pings: seq<Ping>)
    requires SeedDensities(pings)
    ensures MaxDensity(pings[5..]) == Some(220.0)
  {
    assert pings[10..] == [];
    assert MaxDensity(pings[9..]) == Some(140.0);
    assert MaxDensity(pings[8..]) == Some(190.0);
    assert MaxDensity(pings[7..]) == Some(190.0);
    assert MaxDensity(pings[6..]) == Some(220.0);
    assert MaxDensity(pings[5..]) == Some(220.0);
  }

  // ---------------------------------------------------------------- refresh tick

  /** One interval tick: jitter the pings, encode them and hand them to the map panel. */
  method Tick(trig: Trig, panel: MapPanel.Panel, pings: seq<Ping>, draws: seq<real>)
    returns (next: seq<Ping>, panel': MapPanel.Panel)
    requires |draws| == |pings|
    ensures next == Jitter(pings, draws)
    ensures Nonnegative(next)
    ensures panel.view.Some? && panel.view.value.styleLoaded && panel.view.value.hexes.Some? ==>
              && panel'.view.Some? && panel'.view.value.hexes.Some?
              && |panel'.view.value.hexes.value.features| == |pings|
              && (forall i | 0 <= i < |pings| :: DrawnFor(trig, panel'.view.value.hexes.value.features[i], next[i]))
              && (forall i | 0 <= i < |pings| :: PingOf(panel'.view.value.hexes.value.features[i]) == Some(next[i]))
              && panel' == panel.(view := Some(panel.view.value.(hexes := panel'.view.value.hexes)))
    ensures !(panel.view.Some? && panel.view.value.styleLoaded && panel.view.value.hexes.Some?) ==> panel' == panel
  {
    next := Jitter(pings, draws);
    var fc := GenerateHexGeoJson(trig, next);
    panel' := MapPanel.UpdateHexes(panel, fc);
  }
}
