/** Road geometry for a tour: one lookup per consecutive pair of stops, a
    successful routing-service reply mapped to a `Segment`, and a
    straight-line fallback segment whenever the lookup fails or the reply is
    unusable.

    The routing service is an oracle: `respond(k, from, to)` is what the
    `k`-th lookup of the loop produced. */
module Enrichment {
  import opened DustbinTypes

  /** The speed, in km/h, the fallback assumes. */
  const FallbackSpeed: real := 30.0

  /** One leg of the road route: kilometres, minutes, the polyline as
      (lat, lng) vertices and the turn instructions. */
  datatype Segment = Segment(distance: real, duration: real, geometry: seq<Coord>, instructions: seq<string>)

  /** A vertex as the routing service writes it, longitude first. */
  datatype LngLat = LngLat(lng: real, lat: real)

  datatype Maneuver = Maneuver(instruction: Option<string>)
  datatype Step = Step(maneuver: Option<Maneuver>)
  datatype Leg = Leg(steps: Option<seq<Step>>)
  /** A route of the reply: metres, seconds, the polyline and the legs. */
  datatype OsrmRoute = OsrmRoute(distance: real, duration: real, coordinates: seq<LngLat>, legs: Option<seq<Leg>>)
  datatype OsrmReply = OsrmReply(code: string, routes: Option<seq<OsrmRoute>>)

  /** What one lookup produced: an exception (network failure, a response
      that is not ok, a body that cannot be read) or a parsed reply. */
  datatype Lookup = Thrown | Replied(reply: OsrmReply)

  /** The straight-line segment used when no road route is available: from
      `from` to `to` at 30 km/h, i.e. two minutes per kilometre, with no
      instructions. */
  function Fallback(dist: Metric, from: Coord, to: Coord): (s: Segment)
    ensures s.distance == dist(from, to) && s.distance >= 0.0
    ensures s.duration == 2.0 * s.distance
    ensures s.geometry == [from, to] && s.instructions == []
  {
    var distance := dist(from, to);
    Segment(distance, (distance / FallbackSpeed) * 60.0, [from, to], [])
  }

  function ToLatLng(c: LngLat): Coord
  {
    Coord(c.lat, c.lng)
  }

  function ToLngLat(c: Coord): LngLat
  {
    LngLat(c.lng, c.lat)
  }

  /** The reply's polyline with every vertex turned to (lat, lng). */
  function Geometry(coordinates: seq<LngLat>): (g: seq<Coord>)
    ensures |g| == |coordinates|
    ensures forall k :: 0 <= k < |g| ==> g[k].lat == coordinates[k].lat && g[k].lng == coordinates[k].lng
  {
    seq(|coordinates|, k requires 0 <= k < |coordinates| => ToLatLng(coordinates[k]))
  }

  /** A step contributes its maneuver's instruction when that is present and not empty. */
  function StepInstruction(step: Step): (r: seq<string>)
    ensures |r| <= 1 && forall k :: 0 <= k < |r| ==> r[k] != ""
    ensures r != [] <==> (step.maneuver.Some? && step.maneuver.value.instruction.Some?
      && step.maneuver.value.instruction.value != "")
    ensures r != [] ==> r == [step.maneuver.value.instruction.value]
  {
    match step.maneuver
    case Some(Maneuver(Some(text))) => if text != "" then [text] else []
    case _ => []
  }

  /** The instructions of the steps, in step order. */
  function Instructions(steps: seq<Step>): seq<string>
  {
    if steps == [] then [] else StepInstruction(steps[0]) + Instructions(steps[1..])
  }

  /** The instructions of the first leg, when it and its steps are present. */
  function RouteInstructions(route: OsrmRoute): seq<string>
  {
    match route.legs
    case Some(legs) =>
      if |legs| > 0 && legs[0].steps.Some? then Instructions(legs[0].steps.value) else []
    case None => []
  }

  /** A usable reply: code "Ok" and at least one route. */
  predicate Usable(reply: OsrmReply)
  {
    reply.code == "Ok" && reply.routes.Some? && |reply.routes.value| > 0
  }

  /** The segment built from the reply's first route: metres to kilometres,
      seconds to minutes. */
  function FromOsrm(route: OsrmRoute): Segment
  {
    Segment(route.distance / 1000.0, route.duration / 60.0, Geometry(route.coordinates), RouteInstructions(route))
  }

  /** `fetchRoadRoute`: `None` for an unusable reply, the fallback when the
      lookup threw, the mapped first route otherwise. */
  function FetchRoadRoute(dist: Metric, from: Coord, to: Coord, outcome: Lookup): (r: Option<Segment>)
    ensures outcome.Thrown? ==> r == Some(Fallback(dist, from, to))
    ensures outcome.Replied? ==> (r.Some? <==> Usable(outcome.reply))
  {
    match outcome
    case Thrown => Some(Fallback(dist, from, to))
    case Replied(reply) =>
      if !Usable(reply) then None else Some(FromOsrm(reply.routes.value[0]))
  }

  /** The segment the loop records for one pair of stops: the fallback
      exactly when the lookup threw or the reply is unusable, otherwise the
      mapped first route. */
  function SegmentFor(dist: Metric, from: Coord, to: Coord, outcome: Lookup): (s: Segment)
    ensures !outcome.Replied? || !Usable(outcome.reply) ==> s == Fallback(dist, from, to)
    ensures outcome.Replied? && Usable(outcome.reply) ==> s == FromOsrm(outcome.reply.routes.value[0])
  {
    match FetchRoadRoute(dist, from, to, outcome)
    case Some(segment) => segment
    case None => Fallback(dist, from, to)
  }

  /** `fetchAllRoutes`: one lookup per consecutive pair, in tour order; a
      failed lookup only replaces its own segment. */
  method FetchAllRoutes(dist: Metric, route: seq<Dustbin>, respond: (nat, Coord, Coord) -> Lookup)
    returns (routes: seq<Segment>)
    ensures |route| < 2 ==> routes == []
    ensures |route| >= 2 ==> |routes| == |route| - 1
    ensures forall k :: 0 <= k < |routes| ==>
      var from := route[k].coordinates;
      var to := route[k + 1].coordinates;
      routes[k] == SegmentFor(dist, from, to, respond(k, from, to))
  {
    routes := [];
    if |route| < 2 {
      return;
    }
    for i := 0 to |route| - 1
      invariant |routes| == i
      invariant forall k :: 0 <= k < i ==>
        var from := route[k].coordinates;
        var to := route[k + 1].coordinates;
        routes[k] == SegmentFor(dist, from, to, respond(k, from, to))
    {
      var from := route[i].coordinates;
      var to := route[i + 1].coordinates;
      var segment := FetchRoadRoute(dist, from, to, respond(i, from, to));
      if segment.Some? {
        routes := routes + [segment.value];
      } else {
        routes := routes + [Fallback(dist, from, to)];
      }
    }
  }

  /** The service's polyline of a road given as (lat, lng) vertices maps
      back to exactly those vertices. */
  lemma GeometryRoundTrip(g: seq<Coord>)
    ensures Geometry(seq(|g|, k requires 0 <= k < |g| => ToLngLat(g[k]))) == g
  {
  }

  /** The instructions of consecutive step lists are the concatenation of
      theirs: instructions keep the order of the steps. */
  lemma {:induction false} InstructionsAppend(s1: seq<Step>, s2: seq<Step>)
    ensures Instructions(s1 + s2) == Instructions(s1) + Instructions(s2)
    decreases |s1|
  {
    if s1 == [] {
      assert s1 + s2 == s2;
    } else {
      assert (s1 + s2)[1..] == s1[1..] + s2;
      InstructionsAppend(s1[1..], s2);
    }
  }

  /** At most one instruction per step, and none of them empty. */
  lemma {:induction false} InstructionsBound(steps: seq<Step>)
    ensures |Instructions(steps)| <= |steps|
    ensures forall k :: 0 <= k < |Instructions(steps)| ==> Instructions(steps)[k] != ""
    decreases |steps|
  {
    if steps != [] {
      InstructionsBound(steps[1..]);
    }
  }

  /** A usable reply's metres and seconds come back as kilometres and minutes. */
  lemma UnitConversion(route: OsrmRoute)
    ensures FromOsrm(route).distance * 1000.0 == route.distance
    ensures FromOsrm(route).duration * 60.0 == route.duration
  {
  }
}
