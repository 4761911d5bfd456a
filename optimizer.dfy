/** The optimiser as a whole: priority nearest-neighbour construction, then
    2-opt, then simulated annealing for tours of four or more stops. */
module Optimizer {
  import opened DustbinTypes
  import opened RouteCost
  import Construction
  import TwoOpt
  import Annealing

  /** Annealing runs only on tours of at least this many stops. */
  const AnnealingMinStops: nat := 4
  const AnnealingInitialTemp: real := 50.0
  const AnnealingCoolingRate: real := 0.92

  /** The tour the optimiser returns for `bins`. */
  function Optimize(dist: Metric, bins: seq<Dustbin>, draws: seq<Annealing.Draw>): seq<Dustbin>
    requires |draws| >= Annealing.MaxIterations && Annealing.ValidDraws(draws)
  {
    if |bins| == 0 then []
    else if |bins| == 1 then bins
    else
      var improved := TwoOpt.Rounds(CostOf(dist), Construction.InitialRoute(dist, bins), TwoOpt.MaxIterations);
      if |improved| >= AnnealingMinStops then
        Annealing.Anneal(CostOf(dist), improved, AnnealingInitialTemp, AnnealingCoolingRate, draws)
      else improved
  }

  method CalculateOptimizedRoute(dist: Metric, bins: seq<Dustbin>, draws: seq<Annealing.Draw>)
    returns (optimizedRoute: seq<Dustbin>)
    requires |draws| >= Annealing.MaxIterations && Annealing.ValidDraws(draws)
    ensures optimizedRoute == Optimize(dist, bins, draws)
    ensures |bins| <= 1 ==> optimizedRoute == bins
    ensures multiset(optimizedRoute) == multiset(bins)
    ensures |bins| > 0 ==> forall m :: 0 <= m < |bins| ==> bins[m].fill <= optimizedRoute[0].fill
    ensures |bins| >= 2 ==> Cost(dist, optimizedRoute) <= Cost(dist, Construction.InitialRoute(dist, bins))
  {
    OptimizePermutes(dist, bins, draws);
    if |bins| > 0 {
      OptimizeStartsFullest(dist, bins, draws);
    }
    if |bins| >= 2 {
      OptimizeNoCostlier(dist, bins, draws);
    }
    if |bins| == 0 {
      return [];
    }
    if |bins| == 1 {
      return bins;
    }
    var route := Construction.ConstructRoute(dist, bins);
    optimizedRoute := TwoOpt.TwoOptImprovement(dist, route);
    if |optimizedRoute| >= AnnealingMinStops {
      optimizedRoute := Annealing.SimulatedAnnealing(dist, optimizedRoute, AnnealingInitialTemp, AnnealingCoolingRate, draws);
    }
  }

  /** The later phases keep the stops and the first stop of the constructed tour. */
  lemma OptimizeKeepsInitialStart(dist: Metric, bins: seq<Dustbin>, draws: seq<Annealing.Draw>)
    requires |draws| >= Annealing.MaxIterations && Annealing.ValidDraws(draws)
    requires |bins| >= 2
    ensures KeepsStopsAndStart(Optimize(dist, bins, draws), Construction.InitialRoute(dist, bins))
  {
    var cost := CostOf(dist);
    var initial := Construction.InitialRoute(dist, bins);
    var improved := TwoOpt.Rounds(cost, initial, TwoOpt.MaxIterations);
    TwoOpt.RoundsPermute(cost, initial, TwoOpt.MaxIterations);
    if |improved| >= AnnealingMinStops {
      Annealing.AnnealPermutes(cost, improved, AnnealingInitialTemp, AnnealingCoolingRate, draws);
    }
  }

  /** Every bin is visited exactly once. */
  lemma OptimizePermutes(dist: Metric, bins: seq<Dustbin>, draws: seq<Annealing.Draw>)
    requires |draws| >= Annealing.MaxIterations && Annealing.ValidDraws(draws)
    ensures multiset(Optimize(dist, bins, draws)) == multiset(bins)
    ensures |Optimize(dist, bins, draws)| == |bins|
  {
    if |bins| >= 2 {
      var tour := Optimize(dist, bins, draws);
      var initial := Construction.InitialRoute(dist, bins);
      OptimizeKeepsInitialStart(dist, bins, draws);
      Construction.InitialRoutePermutes(dist, bins);
      assert multiset(tour) == multiset(initial) == multiset(bins);
    }
  }

  /** The tour starts at a bin of maximal fill. */
  lemma OptimizeStartsFullest(dist: Metric, bins: seq<Dustbin>, draws: seq<Annealing.Draw>)
    requires |draws| >= Annealing.MaxIterations && Annealing.ValidDraws(draws)
    requires |bins| > 0
    ensures var tour := Optimize(dist, bins, draws);
      |tour| > 0 && forall m :: 0 <= m < |bins| ==> bins[m].fill <= tour[0].fill
  {
    var tour := Optimize(dist, bins, draws);
    if |bins| >= 2 {
      var initial := Construction.InitialRoute(dist, bins);
      OptimizeKeepsInitialStart(dist, bins, draws);
      Construction.InitialRouteStartsFullest(dist, bins);
      assert tour[0] == initial[0];
    }
  }

  /** Neither 2-opt nor annealing makes the constructed tour costlier. */
  lemma OptimizeNoCostlier(dist: Metric, bins: seq<Dustbin>, draws: seq<Annealing.Draw>)
    requires |draws| >= Annealing.MaxIterations && Annealing.ValidDraws(draws)
    requires |bins| >= 2
    ensures Cost(dist, Optimize(dist, bins, draws)) <= Cost(dist, Construction.InitialRoute(dist, bins))
  {
    var cost := CostOf(dist);
    var initial := Construction.InitialRoute(dist, bins);
    var improved := TwoOpt.Rounds(cost, initial, TwoOpt.MaxIterations);
    TwoOpt.RoundsNoCostlier(cost, initial, TwoOpt.MaxIterations);
    if |improved| >= AnnealingMinStops {
      Annealing.AnnealNoCostlier(cost, improved, AnnealingInitialTemp, AnnealingCoolingRate, draws);
    }
  }
}
