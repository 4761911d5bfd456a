/** The turn-by-turn projection of a tour: for each stop, the distance and
    duration from the previous stop, the heading and its compass name, and
    the arrival-time text; plus the route totals.

    `roadRoutes` holds the enriched segments (possibly fewer than the legs,
    while they are loading); a missing segment falls back to the straight
    line. The great-circle azimuth is the parameter `azimuth`, in degrees
    in [-180, 180]. */
module Navigation {
  import opened DustbinTypes
  import opened Enrichment
  import Text
  import RouteCost

  type AzimuthFn = f: (Coord, Coord) -> real | forall a: Coord, b: Coord :: -180.0 <= f(a, b) <= 180.0
    witness (a: Coord, b: Coord) => 0.0

  /** How far along the road polyline the heading looks. */
  const LookAhead: nat := 5

  const Directions: seq<string> := ["N", "NE", "E", "SE", "S", "SW", "W", "NW"]

  /** `Math.round`: halves round up. */
  function JsRound(x: real): int
  {
    (x + 0.5).Floor
  }

  /** The JavaScript `%` on numbers: the remainder takes the sign of `x`. */
  function JsRealRem(x: real, m: real): real
    requires m > 0.0
  {
    if x >= 0.0 then x - m * ((x / m).Floor as real)
    else -((-x) - m * ((-x / m).Floor as real))
  }

  /** The JavaScript `%` on integers. */
  function JsIntRem(i: int, m: nat): int
    requires m > 0
  {
    if i >= 0 then i % m else -((-i) % m)
  }

  /** `calculateDistance`: kilometres from the previous stop. */
  function StepDistance(dist: Metric, route: seq<Dustbin>, roadRoutes: seq<Segment>, index: nat): (d: real)
    requires index < |route|
    ensures index == 0 ==> d == 0.0
    ensures 0 < index <= |roadRoutes| ==> d == roadRoutes[index - 1].distance
    ensures |roadRoutes| < index ==> d == dist(route[index - 1].coordinates, route[index].coordinates) && d >= 0.0
  {
    if index == 0 then 0.0
    else if index - 1 < |roadRoutes| then roadRoutes[index - 1].distance
    else dist(route[index - 1].coordinates, route[index].coordinates)
  }

  /** `calculateRoadDuration`: minutes from the previous stop. */
  function StepDuration(dist: Metric, route: seq<Dustbin>, roadRoutes: seq<Segment>, index: nat): (t: real)
    requires index < |route|
    ensures index == 0 ==> t == 0.0
    ensures 0 < index <= |roadRoutes| ==> t == roadRoutes[index - 1].duration
    ensures |roadRoutes| < index ==> t == 2.0 * StepDistance(dist, route, roadRoutes, index)
  {
    if index == 0 then 0.0
    else if index - 1 < |roadRoutes| then roadRoutes[index - 1].duration
    else (StepDistance(dist, route, roadRoutes, index) / FallbackSpeed) * 60.0
  }

  /** The polyline vertex the heading aims at: `min(5, length - 1)`. */
  function TargetVertex(length: nat): (t: nat)
    requires length >= 2
    ensures 1 <= t < length && t <= LookAhead
    ensures t == LookAhead || t == length - 1
  {
    if LookAhead < length - 1 then LookAhead else length - 1
  }

  /** `(bearing + 360) % 360`. */
  function Normalize(bearing: real): real
  {
    JsRealRem(bearing + 360.0, 360.0)
  }

  /** A raw azimuth normalises into [0, 360) and keeps its direction. */
  lemma NormalizeRange(bearing: real)
    requires -180.0 <= bearing <= 180.0
    ensures 0.0 <= Normalize(bearing) < 360.0
    ensures Normalize(bearing) == bearing || Normalize(bearing) == bearing + 360.0
  {
    var x := bearing + 360.0;
    var q := (x / 360.0).Floor;
    assert q == 0 || q == 1;
  }

  /** `calculateBearing`: along the first stretch of the road polyline when
      the segment has one, else along the straight line. */
  function StepBearing(azimuth: AzimuthFn, route: seq<Dustbin>, roadRoutes: seq<Segment>, index: nat): (b: real)
    requires index < |route|
    ensures 0.0 <= b < 360.0
  {
    if index == 0 then 0.0
    else if index - 1 < |roadRoutes| && |roadRoutes[index - 1].geometry| >= 2 then
      var g := roadRoutes[index - 1].geometry;
      NormalizeRange(azimuth(g[0], g[TargetVertex(|g|)]));
      Normalize(azimuth(g[0], g[TargetVertex(|g|)]))
    else
      NormalizeRange(azimuth(route[index - 1].coordinates, route[index].coordinates));
      Normalize(azimuth(route[index - 1].coordinates, route[index].coordinates))
  }

  /** `getDirection`: the name at `round(bearing / 45) % 8`; `None` where the
      index is negative and the lookup yields `undefined`, which happens only
      below -22.5 degrees. */
  function Direction(bearing: real): (d: Option<string>)
    ensures bearing >= -22.5 ==> d.Some?
    ensures d.Some? ==> d.value in Directions
  {
    var index := JsIntRem(JsRound(bearing / 45.0), 8);
    if 0 <= index < |Directions| then Some(Directions[index]) else None
  }

  /** Every bearing in [0, 360) is named by the compass point within 22.5
      degrees of it, north also covering [337.5, 360). */
  lemma DirectionSector(bearing: real, k: nat)
    requires 0.0 <= bearing < 360.0 && k < 8
    requires 45.0 * k as real - 22.5 <= bearing < 45.0 * k as real + 22.5
      || (k == 0 && 337.5 <= bearing)
    ensures Direction(bearing) == Some(Directions[k])
  {
    var r := JsRound(bearing / 45.0);
    if k == 0 && 337.5 <= bearing {
      assert r == 8;
    } else {
      assert r == k;
    }
  }

  /** What the view shows as the heading: "Start" for the first stop. */
  function StepDirection(azimuth: AzimuthFn, route: seq<Dustbin>, roadRoutes: seq<Segment>, index: nat): (d: string)
    requires index < |route|
    ensures index == 0 ==> d == "Start"
    ensures index > 0 ==> d in Directions
  {
    if index == 0 then "Start"
    else
      Direction(StepBearing(azimuth, route, roadRoutes, index)).value
  }

  /** The two shapes of a time text: "N min" and "Hh Mm". */
  datatype TimeText = Minutes(minutes: int) | HoursMinutes(hours: int, minutes: int)

  function Render(t: TimeText): string
  {
    match t
    case Minutes(m) => Text.IntToString(m) + " min"
    case HoursMinutes(h, m) => Text.IntToString(h) + "h " + Text.IntToString(m) + "m"
  }

  /** The time text as the source computes it: under an hour the rounded
      minutes, otherwise the whole hours and the rounded remaining minutes. */
  function TimeAsWritten(duration: real): (t: TimeText)
    ensures t.Minutes? <==> duration < 60.0
    ensures t.Minutes? ==> t.minutes == JsRound(duration)
    ensures t.HoursMinutes? ==>
      t.hours >= 1 && (60 * t.hours) as real <= duration < (60 * t.hours + 60) as real && 0 <= t.minutes <= 60
    ensures t.HoursMinutes? ==> t.minutes == JsRound(duration - (60 * t.hours) as real)
  {
    if duration < 60.0 then Minutes(JsRound(duration))
    else HoursMinutes((duration / 60.0).Floor, JsRound(JsRealRem(duration, 60.0)))
  }

  /** Rounding after splitting can show 60 minutes: 119.5 minutes reads "1h 60m". */
  lemma TimeAsWrittenShowsSixtyMinutes()
    ensures TimeAsWritten(119.5) == HoursMinutes(1, 60)
    ensures TimeAsWritten(59.5) == Minutes(60)
  {
    assert (119.5 / 60.0).Floor == 1;
    assert JsRealRem(119.5, 60.0) == 59.5;
  }

  /** The time text rounded to whole minutes before it is split. */
  function Time(duration: real): (t: TimeText)
    ensures t.Minutes? ==> t.minutes == JsRound(duration) && t.minutes < 60
    ensures t.HoursMinutes? ==>
      t.hours >= 1 && 0 <= t.minutes < 60 && t.hours * 60 + t.minutes == JsRound(duration)
  {
    var total := JsRound(duration);
    if total < 60 then Minutes(total) else HoursMinutes(total / 60, total % 60)
  }

  /** Below 59.5 minutes both texts agree. */
  lemma TimeAgreesBelowHour(duration: real)
    requires duration < 59.5
    ensures Time(duration) == TimeAsWritten(duration)
  {
  }

  /** `calculateTime`, with the rounding done first. */
  function StepTime(dist: Metric, route: seq<Dustbin>, roadRoutes: seq<Segment>, index: nat): (t: TimeText)
    requires index < |route|
    ensures index == 0 ==> t == Minutes(0)
    ensures index > 0 && t.Minutes? ==> t.minutes == JsRound(StepDuration(dist, route, roadRoutes, index))
    ensures t.Minutes? ==> t.minutes < 60
    ensures t.HoursMinutes? ==>
      t.hours >= 1 && 0 <= t.minutes < 60
      && t.hours * 60 + t.minutes == JsRound(StepDuration(dist, route, roadRoutes, index))
  {
    if index == 0 then Minutes(0)
    else Time(StepDuration(dist, route, roadRoutes, index))
  }

  /** The first stop is reached at once: no distance, no time, "0 min". */
  lemma FirstStep(dist: Metric, route: seq<Dustbin>, roadRoutes: seq<Segment>)
    requires |route| > 0
    ensures StepDistance(dist, route, roadRoutes, 0) == 0.0
    ensures StepDuration(dist, route, roadRoutes, 0) == 0.0
    ensures Render(StepTime(dist, route, roadRoutes, 0)) == "0 min"
  {
    assert Text.NatToString(0) == "0";
  }

  /** A fallback leg takes two minutes per kilometre. */
  lemma StraightLineDuration(dist: Metric, route: seq<Dustbin>, roadRoutes: seq<Segment>, index: nat)
    requires 0 < index < |route| && |roadRoutes| < index
    ensures StepDuration(dist, route, roadRoutes, index)
      == 2.0 * dist(route[index - 1].coordinates, route[index].coordinates)
  {
  }

  /** The sum of `StepDistance` over the first `n` stops. */
  function TotalDistance(dist: Metric, route: seq<Dustbin>, roadRoutes: seq<Segment>, n: nat): (d: real)
    requires n <= |route|
    ensures (forall k :: 0 <= k < |roadRoutes| ==> roadRoutes[k].distance >= 0.0) ==> d >= 0.0
  {
    if n == 0 then 0.0
    else TotalDistance(dist, route, roadRoutes, n - 1) + StepDistance(dist, route, roadRoutes, n - 1)
  }

  function SumDurations(roadRoutes: seq<Segment>): (t: real)
    ensures (forall k :: 0 <= k < |roadRoutes| ==> roadRoutes[k].duration >= 0.0) ==> t >= 0.0
  {
    if roadRoutes == [] then 0.0
    else SumDurations(roadRoutes[..|roadRoutes| - 1]) + roadRoutes[|roadRoutes| - 1].duration
  }

  /** The total minutes: the segments' durations, or, when that sum is 0,
      the total distance at 30 km/h. */
  function TotalDuration(dist: Metric, route: seq<Dustbin>, roadRoutes: seq<Segment>): (t: real)
    ensures SumDurations(roadRoutes) != 0.0 ==> t == SumDurations(roadRoutes)
    ensures SumDurations(roadRoutes) == 0.0 ==> t == 2.0 * TotalDistance(dist, route, roadRoutes, |route|)
    ensures (forall k :: 0 <= k < |roadRoutes| ==> roadRoutes[k].distance >= 0.0 && roadRoutes[k].duration >= 0.0)
      ==> t >= 0.0
  {
    var sum := SumDurations(roadRoutes);
    if sum != 0.0 then sum else (TotalDistance(dist, route, roadRoutes, |route|) / FallbackSpeed) * 60.0
  }

  /** The total-time text as the source computes it: the same split, then
      round, as `TimeAsWritten`. */
  function TotalTimeAsWritten(dist: Metric, route: seq<Dustbin>, roadRoutes: seq<Segment>): TimeText
  {
    TimeAsWritten(TotalDuration(dist, route, roadRoutes))
  }

  /** One segment of 119.5 minutes: the written total reads "1h 60m", the
      corrected one "2h 0m". */
  lemma TotalTimeAsWrittenShowsSixtyMinutes(dist: Metric, route: seq<Dustbin>, roadRoutes: seq<Segment>)
    requires |roadRoutes| == 1 && roadRoutes[0].duration == 119.5
    ensures TotalTimeAsWritten(dist, route, roadRoutes) == HoursMinutes(1, 60)
    ensures TotalTime(dist, route, roadRoutes) == HoursMinutes(2, 0)
  {
    assert roadRoutes[..0] == [];
    assert SumDurations(roadRoutes) == 119.5;
    TimeAsWrittenShowsSixtyMinutes();
  }

  /** The total-time text, rounded to whole minutes before it is split. */
  function TotalTime(dist: Metric, route: seq<Dustbin>, roadRoutes: seq<Segment>): (t: TimeText)
    ensures t.Minutes? ==> t.minutes == JsRound(TotalDuration(dist, route, roadRoutes)) && t.minutes < 60
    ensures t.HoursMinutes? ==>
      t.hours >= 1 && 0 <= t.minutes < 60
      && t.hours * 60 + t.minutes == JsRound(TotalDuration(dist, route, roadRoutes))
  {
    Time(TotalDuration(dist, route, roadRoutes))
  }

  /** Before any segment has arrived the total time is the straight-line
      length of the tour at 30 km/h: two minutes per kilometre. */
  lemma TotalDurationWithoutSegments(dist: Metric, route: seq<Dustbin>)
    ensures TotalDuration(dist, route, []) == 2.0 * RouteCost.PathLength(dist, route)
  {
    TotalDistanceStraight(dist, route, |route|);
    assert route[..|route|] == route;
  }

  /** Without road segments the total distance is the tour's straight-line length. */
  lemma {:induction false} TotalDistanceStraight(dist: Metric, route: seq<Dustbin>, n: nat)
    requires n <= |route|
    ensures TotalDistance(dist, route, [], n) == RouteCost.PathLength(dist, route[..n])
  {
    if n > 0 {
      TotalDistanceStraight(dist, route, n - 1);
      assert route[..n][..n - 1] == route[..n - 1];
      if n == 1 {
        assert RouteCost.PathLength(dist, route[..1]) == 0.0;
      }
    }
  }
}
