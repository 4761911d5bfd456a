/** Phase 2 of the optimiser: 2-opt local search. A pass scans the segment
    reversals `i..j` with 1 <= i < j < n in order and takes the first one that
    strictly lowers the cost; passes repeat until one finds nothing or the
    pass cap is reached. Position 0 is never moved.

    The search is stated for any cost function `cost`; the optimiser runs it
    with `RouteCost.Cost`. */
module TwoOpt {
  import opened DustbinTypes
  import opened RouteCost

  const MaxIterations: nat := 100

  function Reversed<T>(s: seq<T>): (r: seq<T>)
    ensures |r| == |s|
    ensures multiset(r) == multiset(s)
    ensures forall k :: 0 <= k < |s| ==> r[k] == s[|s| - 1 - k]
  {
    if |s| == 0 then []
    else
      assert s == s[..|s| - 1] + [s[|s| - 1]];
      [s[|s| - 1]] + Reversed(s[..|s| - 1])
  }

  /** `[...r.slice(0, i), ...r.slice(i, j + 1).reverse(), ...r.slice(j + 1)]`,
      written position by position. */
  function ReverseSegment<T>(r: seq<T>, i: nat, j: nat): (c: seq<T>)
    requires i <= j < |r|
    ensures |c| == |r|
    ensures multiset(c) == multiset(r)
    ensures forall k :: 0 <= k < i ==> c[k] == r[k]
    ensures forall k :: i <= k <= j ==> c[k] == r[i + j - k]
    ensures forall k :: j < k < |r| ==> c[k] == r[k]
  {
    var c := seq(|r|, k requires 0 <= k < |r| => if i <= k <= j then r[i + j - k] else r[k]);
    ReverseSegmentSplices(r, i, j);
    c
  }

  /** The candidate is the spread of the prefix, the reversed segment and
      the suffix. */
  lemma ReverseSegmentSplices<T>(r: seq<T>, i: nat, j: nat)
    requires i <= j < |r|
    ensures var c := seq(|r|, k requires 0 <= k < |r| => if i <= k <= j then r[i + j - k] else r[k]);
      c == r[..i] + Reversed(r[i..j + 1]) + r[j + 1..]
      && multiset(c) == multiset(r)
  {
    var c := seq(|r|, k requires 0 <= k < |r| => if i <= k <= j then r[i + j - k] else r[k]);
    assert c == r[..i] + Reversed(r[i..j + 1]) + r[j + 1..];
    assert r == r[..i] + r[i..j + 1] + r[j + 1..];
  }

  /** The first improving reversal at or after candidate (i, j) in scan order. */
  function FirstImprovement<T>(cost: seq<T> -> real, r: seq<T>, i: nat, j: nat): Option<seq<T>>
    requires 1 <= i < j
    decreases |r| - i, |r| - j
  {
    if i >= |r| - 1 then None
    else if j >= |r| then FirstImprovement(cost, r, i + 1, i + 2)
    else
      var candidate := ReverseSegment(r, i, j);
      if cost(candidate) < cost(r) then Some(candidate)
      else FirstImprovement(cost, r, i, j + 1)
  }

  /** The tour after at most `passes` improving passes. */
  function Rounds<T>(cost: seq<T> -> real, r: seq<T>, passes: nat): seq<T>
    decreases passes
  {
    if passes == 0 then r
    else
      match FirstImprovement(cost, r, 1, 2)
      case None => r
      case Some(c) => Rounds(cost, c, passes - 1)
  }

  /** One pass of `Rounds`: stop when nothing improves, else go on from the
      improved tour. */
  lemma RoundsUnfold<T>(cost: seq<T> -> real, r: seq<T>, passes: nat)
    requires passes > 0
    ensures FirstImprovement(cost, r, 1, 2).None? ==> Rounds(cost, r, passes) == r
    ensures FirstImprovement(cost, r, 1, 2).Some? ==>
      Rounds(cost, r, passes) == Rounds(cost, FirstImprovement(cost, r, 1, 2).value, passes - 1)
  {
  }

  /** An accepted candidate is a reversal `r[i..j]` with 1 <= i < j < |r|. */
  ghost predicate IsReversalOf<T>(c: seq<T>, r: seq<T>)
  {
    exists i: nat, j: nat :: 1 <= i < j < |r| && c == ReverseSegment(r, i, j)
  }

  /** What a pass finds is a reversal of the tour ... */
  lemma {:induction false} FirstImprovementIsReversal<T>(cost: seq<T> -> real, r: seq<T>, i: nat, j: nat)
    requires 1 <= i < j
    requires FirstImprovement(cost, r, i, j).Some?
    ensures IsReversalOf(FirstImprovement(cost, r, i, j).value, r)
    decreases |r| - i, |r| - j
  {
    if i >= |r| - 1 {
    } else if j >= |r| {
      FirstImprovementIsReversal(cost, r, i + 1, i + 2);
    } else if cost(ReverseSegment(r, i, j)) >= cost(r) {
      FirstImprovementIsReversal(cost, r, i, j + 1);
    } else {
      assert FirstImprovement(cost, r, i, j).value == ReverseSegment(r, i, j);
    }
  }

  /** ... that is strictly cheaper. */
  lemma {:induction false} FirstImprovementCheaper<T>(cost: seq<T> -> real, r: seq<T>, i: nat, j: nat)
    requires 1 <= i < j
    requires FirstImprovement(cost, r, i, j).Some?
    ensures cost(FirstImprovement(cost, r, i, j).value) < cost(r)
    decreases |r| - i, |r| - j
  {
    if i >= |r| - 1 {
    } else if j >= |r| {
      FirstImprovementCheaper(cost, r, i + 1, i + 2);
    } else if cost(ReverseSegment(r, i, j)) >= cost(r) {
      FirstImprovementCheaper(cost, r, i, j + 1);
    }
  }

  /** No reversal `r[a..b]` with 1 <= a < b < |r| is cheaper than `r`. */
  ghost predicate LocallyOptimal<T>(cost: seq<T> -> real, r: seq<T>)
  {
    forall a, b :: 1 <= a < b < |r| ==> cost(ReverseSegment(r, a, b)) >= cost(r)
  }

  /** A scan from (i, j) misses no cheaper reversal at or after (i, j) in
      scan order ... */
  lemma {:induction false} FirstImprovementComplete<T>(cost: seq<T> -> real, r: seq<T>, i: nat, j: nat, a: nat, b: nat)
    requires 1 <= i < j
    requires 1 <= a < b < |r| && (i < a || (i == a && j <= b))
    requires cost(ReverseSegment(r, a, b)) < cost(r)
    ensures FirstImprovement(cost, r, i, j).Some?
    decreases |r| - i, |r| - j
  {
    if i >= |r| - 1 {
    } else if j >= |r| {
      FirstImprovementComplete(cost, r, i + 1, i + 2, a, b);
    } else if cost(ReverseSegment(r, i, j)) >= cost(r) {
      FirstImprovementComplete(cost, r, i, j + 1, a, b);
    }
  }

  /** ... so when a pass finds nothing, no reversal is cheaper: the tour is
      a 2-opt local optimum. */
  lemma NoImprovementIsLocalOptimum<T>(cost: seq<T> -> real, r: seq<T>)
    requires FirstImprovement(cost, r, 1, 2).None?
    ensures LocallyOptimal(cost, r)
  {
    forall a, b | 1 <= a < b < |r| ensures cost(ReverseSegment(r, a, b)) >= cost(r) {
      if cost(ReverseSegment(r, a, b)) < cost(r) {
        FirstImprovementComplete(cost, r, 1, 2, a, b);
      }
    }
  }

  /** The number of improving passes 2-opt makes within the cap. */
  function PassesTaken<T>(cost: seq<T> -> real, r: seq<T>, passes: nat): (k: nat)
    ensures k <= passes
    decreases passes
  {
    if passes == 0 then 0
    else
      match FirstImprovement(cost, r, 1, 2)
      case None => 0
      case Some(c) => 1 + PassesTaken(cost, c, passes - 1)
  }

  /** A 2-opt run that stops before the cap ends at a local optimum; one that
      makes a pass ends strictly cheaper. */
  lemma {:induction false} RoundsLocalOptimum<T>(cost: seq<T> -> real, r: seq<T>, passes: nat)
    ensures PassesTaken(cost, r, passes) < passes ==> LocallyOptimal(cost, Rounds(cost, r, passes))
    ensures PassesTaken(cost, r, passes) > 0 ==> cost(Rounds(cost, r, passes)) < cost(r)
    decreases passes
  {
    if passes > 0 {
      match FirstImprovement(cost, r, 1, 2)
      case None =>
        NoImprovementIsLocalOptimum(cost, r);
      case Some(c) =>
        FirstImprovementCheaper(cost, r, 1, 2);
        RoundsLocalOptimum(cost, c, passes - 1);
        RoundsNoCostlier(cost, c, passes - 1);
    }
  }

  /** A reversal keeps every stop and the start. */
  lemma ReversalPermutes<T>(c: seq<T>, r: seq<T>)
    requires IsReversalOf(c, r)
    ensures KeepsStopsAndStart(c, r)
  {
    var i: nat, j: nat :| 1 <= i < j < |r| && c == ReverseSegment(r, i, j);
  }

  /** Hence what a pass finds keeps every stop and the start. */
  lemma {:induction false} FirstImprovementPermutes<T>(cost: seq<T> -> real, r: seq<T>, i: nat, j: nat)
    requires 1 <= i < j
    requires FirstImprovement(cost, r, i, j).Some?
    ensures KeepsStopsAndStart(FirstImprovement(cost, r, i, j).value, r)
    decreases |r| - i, |r| - j
  {
    if i >= |r| - 1 {
    } else if j >= |r| {
      FirstImprovementPermutes(cost, r, i + 1, i + 2);
    } else if cost(ReverseSegment(r, i, j)) >= cost(r) {
      FirstImprovementPermutes(cost, r, i, j + 1);
    }
  }

  /** 2-opt returns a permutation of its input with the same first stop ... */
  lemma {:induction false} RoundsPermute<T>(cost: seq<T> -> real, r: seq<T>, passes: nat)
    ensures KeepsStopsAndStart(Rounds(cost, r, passes), r)
    decreases passes
  {
    if passes > 0 && FirstImprovement(cost, r, 1, 2).Some? {
      var c := FirstImprovement(cost, r, 1, 2).value;
      FirstImprovementPermutes(cost, r, 1, 2);
      RoundsPermute(cost, c, passes - 1);
    }
  }

  /** ... and no greater cost. */
  lemma {:induction false} RoundsNoCostlier<T>(cost: seq<T> -> real, r: seq<T>, passes: nat)
    ensures cost(Rounds(cost, r, passes)) <= cost(r)
    decreases passes
  {
    if passes > 0 && FirstImprovement(cost, r, 1, 2).Some? {
      var c := FirstImprovement(cost, r, 1, 2).value;
      FirstImprovementCheaper(cost, r, 1, 2);
      RoundsNoCostlier(cost, c, passes - 1);
    }
  }

  /** Tours of at most two stops have no candidate reversal. */
  lemma ShortRoutesUnchanged<T>(cost: seq<T> -> real, r: seq<T>, passes: nat)
    requires |r| <= 2
    ensures Rounds(cost, r, passes) == r
  {
  }

  /** One pass of the nested loops: scan the reversals in order and stop at
      the first strictly cheaper one. */
  method Pass<T>(cost: seq<T> -> real, route: seq<T>, routeCost: real)
    returns (improved: bool, bestRoute: seq<T>, bestCost: real)
    requires |route| > 2 && routeCost == cost(route)
    ensures improved <==> FirstImprovement(cost, route, 1, 2).Some?
    ensures improved ==> bestRoute == FirstImprovement(cost, route, 1, 2).value
    ensures !improved ==> bestRoute == route
    ensures !improved ==> LocallyOptimal(cost, route)
    ensures |bestRoute| == |route| && bestCost == cost(bestRoute)
  {
    improved := false;
    bestRoute := route;
    bestCost := routeCost;
    var i := 1;
    while i < |route| - 1
      invariant 1 <= i <= |route| - 1
      invariant !improved && bestRoute == route && bestCost == routeCost
      invariant FirstImprovement(cost, route, 1, 2) == FirstImprovement(cost, route, i, i + 1)
    {
      improved, bestRoute, bestCost := Scan(cost, route, routeCost, i);
      if improved {
        return;
      }
      i := i + 1;
    }
    NoImprovementIsLocalOptimum(cost, route);
  }

  /** The inner loop of a pass: the reversals `i..j` for `j` from `i + 1` on. */
  method Scan<T>(cost: seq<T> -> real, route: seq<T>, routeCost: real, i: nat)
    returns (improved: bool, bestRoute: seq<T>, bestCost: real)
    requires 1 <= i < |route| - 1 && routeCost == cost(route)
    ensures improved ==> FirstImprovement(cost, route, i, i + 1) == Some(bestRoute)
    ensures !improved ==> FirstImprovement(cost, route, i, i + 1) == FirstImprovement(cost, route, i + 1, i + 2)
    ensures !improved ==> bestRoute == route
    ensures |bestRoute| == |route| && bestCost == cost(bestRoute)
  {
    improved := false;
    bestRoute := route;
    bestCost := routeCost;
    var j := i + 1;
    while j < |route|
      invariant i + 1 <= j <= |route|
      invariant bestRoute == route && bestCost == routeCost
      invariant FirstImprovement(cost, route, i, i + 1) == FirstImprovement(cost, route, i, j)
    {
      var newRoute := ReverseSegment(route, i, j);
      var newCost := cost(newRoute);
      if newCost < bestCost {
        return true, newRoute, newCost;
      }
      j := j + 1;
    }
  }

  method TwoOptImprovement(dist: Metric, route: seq<Dustbin>) returns (bestRoute: seq<Dustbin>)
    ensures bestRoute == Rounds(CostOf(dist), route, MaxIterations)
    ensures |route| <= 2 ==> bestRoute == route
    ensures multiset(bestRoute) == multiset(route) && |bestRoute| == |route|
    ensures |route| > 0 ==> bestRoute[0] == route[0]
    ensures Cost(dist, bestRoute) <= Cost(dist, route)
    ensures PassesTaken(CostOf(dist), route, MaxIterations) < MaxIterations ==> LocallyOptimal(CostOf(dist), bestRoute)
  {
    var cost := CostOf(dist);
    RoundsPermute(cost, route, MaxIterations);
    RoundsNoCostlier(cost, route, MaxIterations);
    if |route| <= 2 {
      ShortRoutesUnchanged(cost, route, MaxIterations);
      return route;
    }
    var improved := true;
    bestRoute := route;
    var bestCost := CalculateRouteCost(dist, bestRoute);
    var iterations: nat := 0;
    while improved && iterations < MaxIterations
      invariant iterations <= MaxIterations
      invariant |bestRoute| == |route|
      invariant bestCost == cost(bestRoute)
      invariant Rounds(cost, route, MaxIterations) == Rounds(cost, bestRoute, MaxIterations - iterations)
      invariant !improved ==> FirstImprovement(cost, bestRoute, 1, 2).None?
      decreases MaxIterations - iterations
    {
      iterations := iterations + 1;
      ghost var previous := bestRoute;
      improved, bestRoute, bestCost := Pass(cost, bestRoute, bestCost);
      RoundsUnfold(cost, previous, MaxIterations - iterations + 1);
      if !improved && iterations < MaxIterations {
        RoundsUnfold(cost, previous, MaxIterations - iterations);
      }
    }
    if iterations < MaxIterations {
      RoundsUnfold(cost, bestRoute, MaxIterations - iterations);
    }
    RoundsLocalOptimum(cost, route, MaxIterations);
  }
}
