/** Phase 3 of the optimiser: simulated annealing over swaps of two positions
    that never include the first stop, keeping the cheapest tour seen.

    The random numbers the source draws are supplied as a sequence of `Draw`s,
    one per iteration; whether a worse neighbour is accepted (the source
    compares a random number with `exp(-delta / temperature)`) is the draw's
    `acceptWorse` bit. */
module Annealing {
  import opened DustbinTypes
  import opened RouteCost

  const MinTemp: real := 0.1
  const MaxIterations: nat := 200

  /** The random numbers one iteration consumes. A draw may refuse a
      neighbour of equal cost, which the source never does (`exp(0)` is 1);
      every property below holds for every draw, so such runs are merely
      extra. */
  datatype Draw = Draw(u: real, v: real, acceptWorse: bool)

  /** The range of `Math.random()`. */
  predicate InUnit(x: real)
  {
    0.0 <= x < 1.0
  }

  predicate ValidDraws(draws: seq<Draw>)
  {
    forall k :: 0 <= k < |draws| ==> InUnit(draws[k].u) && InUnit(draws[k].v)
  }

  /** `floor(u * m)` for `u` in [0, 1) lies in [0, m). */
  lemma ScaledFloorBound(u: real, m: nat)
    requires InUnit(u) && m >= 1
    ensures 0 <= (u * m as real).Floor < m
  {
    assert u * m as real < m as real by {
      assert (1.0 - u) * m as real > 0.0;
    }
  }

  /** The first swap position, `floor(u * (n - 1)) + 1`: never position 0. */
  function FirstIndex(u: real, n: nat): (i: nat)
    requires InUnit(u) && n >= 2
    ensures 1 <= i <= n - 1
  {
    ScaledFloorBound(u, n - 1);
    (u * (n - 1) as real).Floor + 1
  }

  /** The second swap position, `floor(v * (n - i)) + i`: at or after `i`. */
  function SecondIndex(v: real, n: nat, i: nat): (j: nat)
    requires InUnit(v) && 1 <= i <= n - 1
    ensures i <= j <= n - 1
  {
    ScaledFloorBound(v, n - i);
    (v * (n - i) as real).Floor + i
  }

  /** The neighbour tour: positions `i` and `j` exchanged, the rest as it was. */
  function Swap<T>(s: seq<T>, i: nat, j: nat): (r: seq<T>)
    requires i < |s| && j < |s|
    ensures |r| == |s| && r[i] == s[j] && r[j] == s[i]
    ensures forall k :: 0 <= k < |s| && k != i && k != j ==> r[k] == s[k]
    ensures multiset(r) == multiset(s)
  {
    s[i := s[j]][j := s[i]]
  }

  /** The temperature after `k` coolings: `initialTemp * coolingRate^k`. */
  function Temperature(initialTemp: real, coolingRate: real, k: nat): real
  {
    if k == 0 then initialTemp else Temperature(initialTemp, coolingRate, k - 1) * coolingRate
  }

  /** How many iterations run, counting from `k`: the loop stops at the
      iteration cap or once the temperature has cooled to `MinTemp`. */
  function Iterations(initialTemp: real, coolingRate: real, k: nat): (r: nat)
    requires k <= MaxIterations
    ensures k <= r <= MaxIterations
    ensures r < MaxIterations ==> Temperature(initialTemp, coolingRate, r) <= MinTemp
    ensures forall m :: k <= m < r ==> Temperature(initialTemp, coolingRate, m) > MinTemp
    decreases MaxIterations - k
  {
    if k == MaxIterations || Temperature(initialTemp, coolingRate, k) <= MinTemp then k
    else Iterations(initialTemp, coolingRate, k + 1)
  }

  /** The loop's state: the tour being explored and the best one seen, each with its cost. */
  datatype Search = Search(current: seq<Dustbin>, currentCost: real, best: seq<Dustbin>, bestCost: real)

  function Start(cost: seq<Dustbin> -> real, route: seq<Dustbin>): Search
  {
    Search(route, cost(route), route, cost(route))
  }

  /** One iteration: swap two positions, move to the neighbour when it is
      cheaper or the draw accepts it, and record it when it beats the best. */
  function Step(cost: seq<Dustbin> -> real, s: Search, d: Draw): Search
    requires |s.current| >= 2 && InUnit(d.u) && InUnit(d.v)
  {
    var n := |s.current|;
    var i := FirstIndex(d.u, n);
    var j := SecondIndex(d.v, n, i);
    var neighbour := Swap(s.current, i, j);
    var newCost := cost(neighbour);
    if newCost - s.currentCost < 0.0 || d.acceptWorse then
      if newCost < s.bestCost then Search(neighbour, newCost, neighbour, newCost)
      else Search(neighbour, newCost, s.best, s.bestCost)
    else s
  }

  /** What the state is after the iterations that consume `draws`, in order. */
  function Run(cost: seq<Dustbin> -> real, s: Search, draws: seq<Draw>): (t: Search)
    requires |s.current| >= 2 && ValidDraws(draws)
    ensures |t.current| == |s.current|
    decreases |draws|
  {
    if draws == [] then s
    else
      var last := draws[|draws| - 1];
      assert InUnit(last.u) && InUnit(last.v);
      var t := Run(cost, s, draws[..|draws| - 1]);
      Step(cost, t, last)
  }

  /** Consuming one more draw is one more `Step`. */
  lemma RunOneMore(cost: seq<Dustbin> -> real, s: Search, draws: seq<Draw>, k: nat)
    requires |s.current| >= 2 && ValidDraws(draws) && k < |draws|
    ensures InUnit(draws[k].u) && InUnit(draws[k].v)
    ensures Run(cost, s, draws[..k + 1]) == Step(cost, Run(cost, s, draws[..k]), draws[k])
  {
    var prefix := draws[..k + 1];
    assert prefix[..|prefix| - 1] == draws[..k];
    assert prefix[|prefix| - 1] == draws[k];
  }

  /** The tour `simulatedAnnealing` returns. */
  function Anneal(cost: seq<Dustbin> -> real, route: seq<Dustbin>, initialTemp: real, coolingRate: real, draws: seq<Draw>): seq<Dustbin>
    requires |draws| >= MaxIterations && ValidDraws(draws)
  {
    if |route| <= 2 then route
    else After(cost, Start(cost, route), draws, Iterations(initialTemp, coolingRate, 0)).best
  }

  /** What every state reachable from `route` satisfies: both tours keep the
      stops and the start, both costs are the tours' costs, and the best
      cost is at most the cost of `route`. */
  ghost predicate Reachable(cost: seq<Dustbin> -> real, route: seq<Dustbin>, s: Search)
  {
    KeepsStopsAndStart(s.current, route) && KeepsStopsAndStart(s.best, route)
    && s.currentCost == cost(s.current) && s.bestCost == cost(s.best)
    && s.bestCost <= cost(route)
  }

  lemma StepReachable(cost: seq<Dustbin> -> real, route: seq<Dustbin>, s: Search, d: Draw)
    requires |s.current| >= 2 && InUnit(d.u) && InUnit(d.v)
    requires Reachable(cost, route, s)
    ensures Reachable(cost, route, Step(cost, s, d))
  {
    var n := |s.current|;
    var i := FirstIndex(d.u, n);
    var j := SecondIndex(d.v, n, i);
    var neighbour := Swap(s.current, i, j);
    assert neighbour[0] == s.current[0];
  }

  lemma {:induction false} RunReachable(cost: seq<Dustbin> -> real, route: seq<Dustbin>, s: Search, draws: seq<Draw>)
    requires |s.current| >= 2 && ValidDraws(draws)
    requires Reachable(cost, route, s)
    ensures Reachable(cost, route, Run(cost, s, draws))
    decreases |draws|
  {
    if draws != [] {
      var last := draws[|draws| - 1];
      assert InUnit(last.u) && InUnit(last.v);
      RunReachable(cost, route, s, draws[..|draws| - 1]);
      StepReachable(cost, route, Run(cost, s, draws[..|draws| - 1]), last);
    }
  }

  /** One iteration never raises the best cost, keeps it at most the current
      cost, and either leaves the best tour alone or makes it the current one. */
  lemma StepKeepsBest(cost: seq<Dustbin> -> real, s: Search, d: Draw)
    requires |s.current| >= 2 && InUnit(d.u) && InUnit(d.v)
    requires s.bestCost <= s.currentCost
    ensures var t := Step(cost, s, d);
      && t.bestCost <= s.bestCost
      && t.bestCost <= t.currentCost
      && ((t.best == s.best && t.bestCost == s.bestCost) || (t.best == t.current && t.bestCost == t.currentCost))
  {
  }

  /** The state after the first `k` draws. */
  function After(cost: seq<Dustbin> -> real, s: Search, draws: seq<Draw>, k: nat): Search
    requires |s.current| >= 2 && ValidDraws(draws) && k <= |draws|
  {
    assert ValidDraws(draws[..k]) by {
      forall i | 0 <= i < k ensures InUnit(draws[..k][i].u) && InUnit(draws[..k][i].v) {
        assert draws[..k][i] == draws[i];
      }
    }
    Run(cost, s, draws[..k])
  }

  lemma AfterOneMore(cost: seq<Dustbin> -> real, s: Search, draws: seq<Draw>, k: nat)
    requires |s.current| >= 2 && ValidDraws(draws) && k < |draws|
    ensures InUnit(draws[k].u) && InUnit(draws[k].v)
    ensures After(cost, s, draws, k + 1) == Step(cost, After(cost, s, draws, k), draws[k])
  {
    RunOneMore(cost, s, draws, k);
  }

  /** The search keeps the cheapest tour it was at: after `k` draws the best
      cost is at most the best cost after any earlier number of draws and at
      most the current cost, and the best tour is a tour the search was at
      after some number of draws. */
  lemma {:induction false} RunBestIsCheapestSeen(cost: seq<Dustbin> -> real, s: Search, draws: seq<Draw>, k: nat)
    requires |s.current| >= 2 && ValidDraws(draws) && k <= |draws|
    requires s.best == s.current && s.bestCost == s.currentCost
    ensures var t := After(cost, s, draws, k);
      && t.bestCost <= t.currentCost
      && (forall m :: 0 <= m <= k ==> t.bestCost <= After(cost, s, draws, m).bestCost)
      && exists m :: 0 <= m <= k && t.best == After(cost, s, draws, m).current
           && t.bestCost == After(cost, s, draws, m).currentCost
    decreases k
  {
    var t := After(cost, s, draws, k);
    if k == 0 {
      assert draws[..0] == [];
      assert t == s;
    } else {
      RunBestIsCheapestSeen(cost, s, draws, k - 1);
      AfterOneMore(cost, s, draws, k - 1);
      var p := After(cost, s, draws, k - 1);
      StepKeepsBest(cost, p, draws[k - 1]);
      forall m | 0 <= m <= k ensures t.bestCost <= After(cost, s, draws, m).bestCost {
        if m < k {
          assert p.bestCost <= After(cost, s, draws, m).bestCost;
        }
      }
      if t.best == p.best && t.bestCost == p.bestCost {
        var m :| 0 <= m <= k - 1 && p.best == After(cost, s, draws, m).current
          && p.bestCost == After(cost, s, draws, m).currentCost;
        assert t.best == After(cost, s, draws, m).current;
      } else {
        assert t.best == After(cost, s, draws, k).current;
      }
    }
  }

  /** Annealing returns a tour with the same stops and the same first stop. */
  lemma AnnealPermutes(cost: seq<Dustbin> -> real, route: seq<Dustbin>, initialTemp: real, coolingRate: real, draws: seq<Draw>)
    requires |draws| >= MaxIterations && ValidDraws(draws)
    ensures KeepsStopsAndStart(Anneal(cost, route, initialTemp, coolingRate, draws), route)
  {
    if |route| > 2 {
      AfterReachable(cost, route, draws, Iterations(initialTemp, coolingRate, 0));
    }
  }

  /** Annealing never returns a tour costlier than its input. */
  lemma AnnealNoCostlier(cost: seq<Dustbin> -> real, route: seq<Dustbin>, initialTemp: real, coolingRate: real, draws: seq<Draw>)
    requires |draws| >= MaxIterations && ValidDraws(draws)
    ensures cost(Anneal(cost, route, initialTemp, coolingRate, draws)) <= cost(route)
  {
    if |route| > 2 {
      AfterReachable(cost, route, draws, Iterations(initialTemp, coolingRate, 0));
    }
  }

  /** Annealing returns the cheapest tour it visited: a tour the search was
      at after some number of iterations, costing no more than any of them. */
  lemma AnnealIsCheapestSeen(cost: seq<Dustbin> -> real, route: seq<Dustbin>, initialTemp: real, coolingRate: real, draws: seq<Draw>)
    requires |draws| >= MaxIterations && ValidDraws(draws) && |route| > 2
    ensures var n := Iterations(initialTemp, coolingRate, 0);
      forall k :: 0 <= k <= n ==>
        cost(Anneal(cost, route, initialTemp, coolingRate, draws)) <= cost(After(cost, Start(cost, route), draws, k).current)
    ensures var n := Iterations(initialTemp, coolingRate, 0);
      exists k :: 0 <= k <= n && Anneal(cost, route, initialTemp, coolingRate, draws) == After(cost, Start(cost, route), draws, k).current
  {
    var n := Iterations(initialTemp, coolingRate, 0);
    var start := Start(cost, route);
    var t := After(cost, start, draws, n);
    assert Anneal(cost, route, initialTemp, coolingRate, draws) == t.best;
    RunBestIsCheapestSeen(cost, start, draws, n);
    AfterReachable(cost, route, draws, n);
    forall k | 0 <= k <= n ensures cost(t.best) <= cost(After(cost, start, draws, k).current) {
      AfterReachable(cost, route, draws, k);
      RunBestIsCheapestSeen(cost, start, draws, k);
      assert t.bestCost <= After(cost, start, draws, k).bestCost;
    }
    var m :| 0 <= m <= n && t.best == After(cost, start, draws, m).current
      && t.bestCost == After(cost, start, draws, m).currentCost;
  }

  /** Every state on the way satisfies `Reachable`. */
  lemma AfterReachable(cost: seq<Dustbin> -> real, route: seq<Dustbin>, draws: seq<Draw>, k: nat)
    requires |route| >= 2 && ValidDraws(draws) && k <= |draws|
    ensures Reachable(cost, route, After(cost, Start(cost, route), draws, k))
  {
    assert ValidDraws(draws[..k]) by {
      forall i | 0 <= i < k ensures InUnit(draws[..k][i].u) && InUnit(draws[..k][i].v) {
        assert draws[..k][i] == draws[i];
      }
    }
    RunReachable(cost, route, Start(cost, route), draws[..k]);
  }

  /** The body of one iteration: swap two positions, then accept and record. */
  method Iterate(dist: Metric, currentRoute: seq<Dustbin>, currentCost: real, bestRoute: seq<Dustbin>, bestCost: real, d: Draw)
    returns (nextRoute: seq<Dustbin>, nextCost: real, nextBest: seq<Dustbin>, nextBestCost: real)
    requires |currentRoute| >= 2 && InUnit(d.u) && InUnit(d.v)
    ensures Search(nextRoute, nextCost, nextBest, nextBestCost)
      == Step(CostOf(dist), Search(currentRoute, currentCost, bestRoute, bestCost), d)
  {
    nextRoute, nextCost, nextBest, nextBestCost := currentRoute, currentCost, bestRoute, bestCost;
    var n := |currentRoute|;
    var i := FirstIndex(d.u, n);
    var j := SecondIndex(d.v, n, i);
    var newRoute := Swap(currentRoute, i, j);
    var newCost := CalculateRouteCost(dist, newRoute);
    var delta := newCost - currentCost;
    if delta < 0.0 || d.acceptWorse {
      nextRoute := newRoute;
      nextCost := newCost;
      if nextCost < bestCost {
        nextBest := nextRoute;
        nextBestCost := nextCost;
      }
    }
  }

  /** `temperature *= coolingRate`. */
  method CoolDown(temperature: real, coolingRate: real, ghost initialTemp: real, ghost k: nat) returns (t: real)
    requires temperature == Temperature(initialTemp, coolingRate, k)
    ensures t == Temperature(initialTemp, coolingRate, k + 1)
  {
    t := temperature * coolingRate;
  }

  /** The source's entry point: tours of at most two stops come back as they are. */
  method SimulatedAnnealing(dist: Metric, route: seq<Dustbin>, initialTemp: real, coolingRate: real, draws: seq<Draw>)
    returns (bestRoute: seq<Dustbin>)
    requires |draws| >= MaxIterations && ValidDraws(draws)
    ensures bestRoute == Anneal(CostOf(dist), route, initialTemp, coolingRate, draws)
    ensures |route| <= 2 ==> bestRoute == route
    ensures KeepsStopsAndStart(bestRoute, route)
    ensures Cost(dist, bestRoute) <= Cost(dist, route)
  {
    AnnealPermutes(CostOf(dist), route, initialTemp, coolingRate, draws);
    AnnealNoCostlier(CostOf(dist), route, initialTemp, coolingRate, draws);
    if |route| <= 2 {
      return route;
    }
    bestRoute := Cool(dist, route, initialTemp, coolingRate, draws);
  }

  /** The source's loop: one `Iterate` per draw, `temperature` multiplied by
      `coolingRate` after each, until the cap or `MinTemp` is reached. */
  method Cool(dist: Metric, route: seq<Dustbin>, initialTemp: real, coolingRate: real, draws: seq<Draw>)
    returns (bestRoute: seq<Dustbin>)
    requires |route| > 2 && |draws| >= MaxIterations && ValidDraws(draws)
    ensures bestRoute == Run(CostOf(dist), Start(CostOf(dist), route), draws[..Iterations(initialTemp, coolingRate, 0)]).best
  {
    ghost var cost := CostOf(dist);
    var currentRoute := route;
    bestRoute := route;
    var currentCost := CalculateRouteCost(dist, currentRoute);
    var bestCost := currentCost;
    var temperature := initialTemp;
    var iterations: nat := 0;
    while temperature > MinTemp && iterations < MaxIterations
      invariant iterations <= MaxIterations
      invariant temperature == Temperature(initialTemp, coolingRate, iterations)
      invariant Iterations(initialTemp, coolingRate, 0) == Iterations(initialTemp, coolingRate, iterations)
      invariant Search(currentRoute, currentCost, bestRoute, bestCost)
        == Run(cost, Start(cost, route), draws[..iterations])
      decreases MaxIterations - iterations
    {
      var d := draws[iterations];
      RunOneMore(cost, Start(cost, route), draws, iterations);
      iterations := iterations + 1;
      currentRoute, currentCost, bestRoute, bestCost := Iterate(dist, currentRoute, currentCost, bestRoute, bestCost, d);
      temperature := CoolDown(temperature, coolingRate, initialTemp, iterations - 1);
    }
  }
}
