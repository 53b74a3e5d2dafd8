/**
  Marker styling for earthquake features: the depth colour ladder
  (`dataColor`), the magnitude radius scale (`radiusSize`) and the style
  record handed to the map library for each feature (`dataStyle`).
 */
module Styling {

  /** An earthquake feature as the USGS feed delivers it. `depth` is the third
      geometry coordinate (km), `mag` the `properties.mag` value. */
  datatype Feature = Feature(longitude: real, latitude: real, depth: real, mag: real, place: string)

  /** The path options returned for each earthquake marker. */
  datatype Style = Style(
    opacity: real,
    fillOpacity: real,
    fillColor: string,
    color: string,
    radius: real,
    weight: real,
    stroke: bool)

  /** The ladder's colours, from the shallowest band to the deepest. */
  const Ladder: seq<string> := ["green", "#cafc03", "#fcad03", "#fc8403", "#fc4903", "red"]

  /** The depths (km) that separate consecutive bands, ascending. */
  const Thresholds: seq<real> := [10.0, 30.0, 50.0, 70.0, 90.0]

  /** Colour of a marker by depth: a top-down ladder of strict comparisons. */
  function DataColor(depth: real): (c: string)
    ensures c in Ladder
  {
    if depth > 90.0 then "red"
    else if depth > 70.0 then "#fc4903"
    else if depth > 50.0 then "#fc8403"
    else if depth > 30.0 then "#fcad03"
    else if depth > 10.0 then "#cafc03"
    else "green"
  }

  /** Number of thresholds in `ts` that `d` strictly exceeds. */
  function Exceeded(ts: seq<real>, d: real): (n: nat)
    ensures n <= |ts|
  {
    if ts == [] then 0 else (if d > ts[0] then 1 else 0) + Exceeded(ts[1..], d)
  }

  /** Band index of a depth, independently of the ladder: how many thresholds it passes. */
  function Rank(depth: real): (i: nat)
    ensures i < |Ladder|
  {
    Exceeded(Thresholds, depth)
  }

  /** Radius of a marker by magnitude; a zero magnitude still gets a visible circle. */
  function RadiusSize(mag: real): (r: real)
    ensures r != 0.0
  {
    if mag == 0.0 then 1.0 else mag * 5.0
  }

  function DataStyle(f: Feature): (s: Style)
    ensures s.fillColor == DataColor(f.depth) && s.radius == RadiusSize(f.mag)
    ensures s.opacity == 5.0 && s.fillOpacity == 0.5 && s.color == "000000"
    ensures s.weight == 0.5 && s.stroke
  {
    Style(
      opacity := 5.0,
      fillOpacity := 0.5,
      fillColor := DataColor(f.depth),
      color := "000000",
      radius := RadiusSize(f.mag),
      weight := 0.5,
      stroke := true)
  }

  /** The six colours are pairwise distinct, so a colour identifies its band. */
  lemma LadderDistinct()
    ensures forall i, j :: 0 <= i < j < |Ladder| ==> Ladder[i] != Ladder[j]
  {
  }

  /** Each colour is returned exactly on its band: both directions, lower bound exclusive. */
  lemma DataColorBands(d: real)
    ensures DataColor(d) == "red" <==> d > 90.0
    ensures DataColor(d) == "#fc4903" <==> 70.0 < d <= 90.0
    ensures DataColor(d) == "#fc8403" <==> 50.0 < d <= 70.0
    ensures DataColor(d) == "#fcad03" <==> 30.0 < d <= 50.0
    ensures DataColor(d) == "#cafc03" <==> 10.0 < d <= 30.0
    ensures DataColor(d) == "green" <==> d <= 10.0
  {
  }

  /** The top-down ladder agrees with the threshold count: the first matching branch is the band. */
  lemma {:induction false} DataColorByRank(d: real)
    ensures DataColor(d) == Ladder[Rank(d)]
  {
    var e90 := Exceeded([90.0], d);
    assert e90 == if d > 90.0 then 1 else 0 by {
      assert [90.0][1..] == [];
    }
    var e70 := Exceeded([70.0, 90.0], d);
    assert e70 == (if d > 70.0 then 1 else 0) + e90 by {
      assert [70.0, 90.0][1..] == [90.0];
    }
    var e50 := Exceeded([50.0, 70.0, 90.0], d);
    assert e50 == (if d > 50.0 then 1 else 0) + e70 by {
      assert [50.0, 70.0, 90.0][1..] == [70.0, 90.0];
    }
    var e30 := Exceeded([30.0, 50.0, 70.0, 90.0], d);
    assert e30 == (if d > 30.0 then 1 else 0) + e50 by {
      assert [30.0, 50.0, 70.0, 90.0][1..] == [50.0, 70.0, 90.0];
    }
    assert Rank(d) == (if d > 10.0 then 1 else 0) + e30 by {
      assert Thresholds[1..] == [30.0, 50.0, 70.0, 90.0];
    }
  }

  lemma {:induction false} ExceededMonotone(ts: seq<real>, d1: real, d2: real)
    requires d1 <= d2
    ensures Exceeded(ts, d1) <= Exceeded(ts, d2)
  {
    if ts != [] {
      ExceededMonotone(ts[1..], d1, d2);
    }
  }

  /** A deeper quake is never drawn in a shallower band. */
  lemma DataColorMonotone(d1: real, d2: real)
    requires d1 <= d2
    ensures Rank(d1) <= Rank(d2)
    ensures DataColor(d1) == Ladder[Rank(d1)] && DataColor(d2) == Ladder[Rank(d2)]
  {
    ExceededMonotone(Thresholds, d1, d2);
    DataColorByRank(d1);
    DataColorByRank(d2);
  }

  /** Zero maps to 1, every other magnitude is scaled by 5 and can be read back. */
  lemma RadiusSizeScale(m: real)
    ensures m == 0.0 ==> RadiusSize(m) == 1.0
    ensures m != 0.0 ==> RadiusSize(m) / 5.0 == m
  {
  }

  /** Negative magnitudes are passed through: the radius is negative exactly for them. */
  lemma RadiusSizeSign(m: real)
    ensures RadiusSize(m) > 0.0 <==> m >= 0.0
  {
  }

  /** Two magnitudes share a radius only if equal, or if they are 0 and 0.2 (both give 1). */
  lemma RadiusSizeCollisions(m1: real, m2: real)
    ensures RadiusSize(m1) == RadiusSize(m2) <==>
      m1 == m2 || (m1 == 0.0 && m2 == 0.2) || (m1 == 0.2 && m2 == 0.0)
  {
  }

  /** The style of a marker is a function of its depth and magnitude alone. */
  lemma DataStyleDependsOnDepthAndMagnitude(f1: Feature, f2: Feature)
    ensures DataStyle(f1) == DataStyle(f2) <==> DataColor(f1.depth) == DataColor(f2.depth) && RadiusSize(f1.mag) == RadiusSize(f2.mag)
    ensures f1.depth == f2.depth && f1.mag == f2.mag ==> DataStyle(f1) == DataStyle(f2)
  {
  }

  /** Three sample quakes: a zero magnitude, a deep one, and one exactly on the 90 km boundary. */
  lemma DataStyleExamples()
    ensures DataStyle(Feature(-120.0, 38.0, 5.0, 0.0, "")).radius == 1.0
    ensures DataStyle(Feature(-120.0, 38.0, 5.0, 0.0, "")).fillColor == "green"
    ensures DataStyle(Feature(140.0, 35.0, 95.0, 6.1, "")).radius == 30.5
    ensures DataStyle(Feature(140.0, 35.0, 95.0, 6.1, "")).fillColor == "red"
    ensures DataStyle(Feature(0.0, 0.0, 90.0, 4.0, "")).radius == 20.0
    ensures DataStyle(Feature(0.0, 0.0, 90.0, 4.0, "")).fillColor == "#fc4903"
  {
  }
}
