/** The cost the optimiser minimises: the length of the tour plus a penalty
    that grows with how late full bins are visited. */
module RouteCost {
  import opened DustbinTypes

  /** Weight of the urgency penalty in the cost. */
  const PenaltyWeight: real := 0.1

  /** Sum of the distances between consecutive stops. */
  function PathLength(dist: Metric, route: seq<Dustbin>): real
  {
    if |route| <= 1 then 0.0
    else PathLength(dist, route[..|route| - 1])
         + dist(route[|route| - 2].coordinates, route[|route| - 1].coordinates)
  }

  /** Sum over positions i of (fill at i / 100) * (i + 1). */
  function Penalty(route: seq<Dustbin>): real
  {
    if route == [] then 0.0
    else Penalty(route[..|route| - 1]) + (route[|route| - 1].fill / 100.0) * (|route| as real)
  }

  /** Cost of a tour; a tour of at most one stop costs nothing. */
  function Cost(dist: Metric, route: seq<Dustbin>): real
  {
    if |route| <= 1 then 0.0 else PathLength(dist, route) + Penalty(route) * PenaltyWeight
  }

  /** The accumulating loop of the source computes exactly `Cost`. */
  method CalculateRouteCost(dist: Metric, route: seq<Dustbin>) returns (cost: real)
    ensures cost == Cost(dist, route)
    ensures |route| <= 1 ==> cost == 0.0
  {
    if |route| <= 1 {
      return 0.0;
    }
    var totalDistance := 0.0;
    var priorityPenalty := 0.0;
    for i := 0 to |route|
      invariant totalDistance == PathLength(dist, route[..i])
      invariant priorityPenalty == Penalty(route[..i])
    {
      if i > 0 {
        totalDistance := totalDistance + dist(route[i - 1].coordinates, route[i].coordinates);
      }
      var priorityWeight := (route[i].fill / 100.0) * ((i + 1) as real);
      priorityPenalty := priorityPenalty + priorityWeight;
      assert route[..i + 1][..i] == route[..i];
    }
    assert route[..|route|] == route;
    cost := totalDistance + priorityPenalty * PenaltyWeight;
  }

  lemma {:induction false} PathLengthNonNegative(dist: Metric, route: seq<Dustbin>)
    ensures PathLength(dist, route) >= 0.0
  {
    if |route| > 1 {
      PathLengthNonNegative(dist, route[..|route| - 1]);
    }
  }

  lemma {:induction false} PenaltyNonNegative(route: seq<Dustbin>)
    requires forall k :: 0 <= k < |route| ==> route[k].fill >= 0.0
    ensures Penalty(route) >= 0.0
  {
    if route != [] {
      PenaltyNonNegative(route[..|route| - 1]);
      var last := route[|route| - 1];
      assert last.fill / 100.0 >= 0.0;
      assert (last.fill / 100.0) * (|route| as real) >= 0.0;
    }
  }

  /** With non-negative fill levels (the normaliser clamps them into [0,100])
      no tour has a negative cost. */
  lemma CostNonNegative(dist: Metric, route: seq<Dustbin>)
    requires forall k :: 0 <= k < |route| ==> route[k].fill >= 0.0
    ensures Cost(dist, route) >= 0.0
  {
    PathLengthNonNegative(dist, route);
    PenaltyNonNegative(route);
  }

  /** A two-stop tour costs the leg plus 0.1 * (f0/100 + 2 * f1/100). */
  lemma TwoStopCost(dist: Metric, a: Dustbin, b: Dustbin)
    ensures Cost(dist, [a, b])
         == dist(a.coordinates, b.coordinates) + PenaltyWeight * (a.fill / 100.0 + (b.fill / 100.0) * 2.0)
  {
    assert [a, b][..1] == [a];
    assert [a][..0] == [];
    assert PathLength(dist, [a, b]) == dist(a.coordinates, b.coordinates);
    assert Penalty([a]) == (a.fill / 100.0) * 1.0;
    assert Penalty([a, b]) == (a.fill / 100.0) * 1.0 + (b.fill / 100.0) * 2.0;
  }

  /** `Cost` as a function value, for the phases that compare candidate tours. */
  function CostOf(dist: Metric): seq<Dustbin> -> real
  {
    r => Cost(dist, r)
  }

  /** A tour visits the same bins as `r`, each as often, and starts where `r` starts. */
  ghost predicate KeepsStopsAndStart<T>(c: seq<T>, r: seq<T>)
  {
    multiset(c) == multiset(r) && |c| == |r| && (|r| > 0 ==> c[0] == r[0])
  }
}
