/** Phase 1 of the optimiser: a priority-weighted nearest-neighbour tour that
    starts at the fullest bin and repeatedly moves to the unvisited bin with
    the best urgency-over-distance score.

    The greedy choice is stated for any scoring function `score`; the
    optimiser uses `Score`. */
module Construction {
  import opened DustbinTypes
  import Sorting

  const UrgencyWeight: real := 2.5
  const DistanceWeight: real := 0.5
  const DistanceOffset: real := 0.1

  /** How attractive `candidate` is as the next stop after `from`. The
      denominator is positive because distances are non-negative. */
  function Score(dist: Metric, from: Dustbin, candidate: Dustbin): real
  {
    (candidate.fill * UrgencyWeight)
      / (dist(from.coordinates, candidate.coordinates) * DistanceWeight + DistanceOffset)
  }

  /** `Score` as a function value. */
  function ScoreOf(dist: Metric): (Dustbin, Dustbin) -> real
  {
    (from, candidate) => Score(dist, from, candidate)
  }

  /** Index of the first best-scoring candidate among `unvisited[..t]`: a later
      candidate replaces the current choice only when it scores strictly more. */
  function BestIndex(score: (Dustbin, Dustbin) -> real, from: Dustbin, unvisited: seq<Dustbin>, t: nat): (k: nat)
    requires 0 < t <= |unvisited|
    ensures k < t
    ensures forall m :: 0 <= m < t ==> score(from, unvisited[m]) <= score(from, unvisited[k])
    ensures forall m :: 0 <= m < k ==> score(from, unvisited[m]) < score(from, unvisited[k])
  {
    if t == 1 then 0
    else
      var k := BestIndex(score, from, unvisited, t - 1);
      if score(from, unvisited[t - 1]) > score(from, unvisited[k]) then t - 1 else k
  }

  function RemoveAt<T>(s: seq<T>, k: nat): (r: seq<T>)
    requires k < |s|
    ensures |r| == |s| - 1
    ensures multiset(r) + multiset{s[k]} == multiset(s)
    ensures forall m :: 0 <= m < k ==> r[m] == s[m]
    ensures forall m :: k <= m < |s| - 1 ==> r[m] == s[m + 1]
  {
    assert s == s[..k] + [s[k]] + s[k + 1..];
    s[..k] + s[k + 1..]
  }

  /** The stops visited after `current` while `unvisited` remain. */
  function Greedy(score: (Dustbin, Dustbin) -> real, current: Dustbin, unvisited: seq<Dustbin>): seq<Dustbin>
    decreases |unvisited|
  {
    if unvisited == [] then []
    else
      var k := BestIndex(score, current, unvisited, |unvisited|);
      [unvisited[k]] + Greedy(score, unvisited[k], RemoveAt(unvisited, k))
  }

  /** The tour phase 1 builds: the fullest bin (first among equals), then the
      greedy continuation over the rest in fill-descending order. */
  function InitialRoute(dist: Metric, bins: seq<Dustbin>): seq<Dustbin>
    requires |bins| > 0
  {
    var order := Sorting.ByFillDescending(bins);
    [order[0]] + Greedy(ScoreOf(dist), order[0], order[1..])
  }

  /** Every step moves to a candidate scoring at least as much, from the
      previous stop, as any bin visited after it. */
  ghost predicate IsGreedy<T>(score: (T, T) -> real, route: seq<T>)
  {
    forall k, m :: 1 <= k < m < |route| ==>
      score(route[k - 1], route[m]) <= score(route[k - 1], route[k])
  }

  /** The scan over `unvisited` with `bestScore` starting at minus infinity
      (here `None`): the first strictly better score wins. */
  method PickNext(dist: Metric, current: Dustbin, unvisited: seq<Dustbin>) returns (bestIndex: nat)
    requires |unvisited| > 0
    ensures bestIndex == BestIndex(ScoreOf(dist), current, unvisited, |unvisited|)
    ensures bestIndex < |unvisited|
    ensures forall m :: 0 <= m < |unvisited| ==>
      Score(dist, current, unvisited[m]) <= Score(dist, current, unvisited[bestIndex])
  {
    ghost var score := ScoreOf(dist);
    bestIndex := 0;
    var bestScore: Option<real> := None;
    for t := 0 to |unvisited|
      invariant t == 0 ==> bestScore.None?
      invariant t > 0 ==>
        bestIndex == BestIndex(score, current, unvisited, t)
        && bestScore == Some(Score(dist, current, unvisited[bestIndex]))
    {
      var candidateScore := Score(dist, current, unvisited[t]);
      if bestScore.None? || candidateScore > bestScore.value {
        bestScore := Some(candidateScore);
        bestIndex := t;
      }
    }
  }

  /** The source's while loop: `route.push` and `unvisited.splice` of the
      chosen candidate, one bin per pass. */
  method ConstructRoute(dist: Metric, bins: seq<Dustbin>) returns (route: seq<Dustbin>)
    requires |bins| > 0
    ensures route == InitialRoute(dist, bins)
  {
    var unvisited := Sorting.ByFillDescending(bins);
    var startBin := unvisited[0];
    unvisited := unvisited[1..];
    route := [startBin];
    var currentBin := startBin;
    while |unvisited| > 0
      invariant |route| > 0 && currentBin == route[|route| - 1]
      invariant route + Greedy(ScoreOf(dist), currentBin, unvisited) == InitialRoute(dist, bins)
      decreases |unvisited|
    {
      var bestIndex := PickNext(dist, currentBin, unvisited);
      var bestNext := unvisited[bestIndex];
      GreedyStep(ScoreOf(dist), route, currentBin, unvisited);
      route := route + [bestNext];
      currentBin := bestNext;
      unvisited := RemoveAt(unvisited, bestIndex);
    }
    assert route + Greedy(ScoreOf(dist), currentBin, unvisited) == route;
  }

  /** One pass of the loop: the chosen bin moves from the unvisited list to the route. */
  lemma GreedyStep(score: (Dustbin, Dustbin) -> real, route: seq<Dustbin>, current: Dustbin, unvisited: seq<Dustbin>)
    requires |unvisited| > 0
    ensures var k := BestIndex(score, current, unvisited, |unvisited|);
      route + Greedy(score, current, unvisited)
      == (route + [unvisited[k]]) + Greedy(score, unvisited[k], RemoveAt(unvisited, k))
  {
    var k := BestIndex(score, current, unvisited, |unvisited|);
    var rest := Greedy(score, unvisited[k], RemoveAt(unvisited, k));
    assert Greedy(score, current, unvisited) == [unvisited[k]] + rest;
    assert route + ([unvisited[k]] + rest) == (route + [unvisited[k]]) + rest;
  }

  lemma {:induction false} GreedyPermutes(score: (Dustbin, Dustbin) -> real, current: Dustbin, unvisited: seq<Dustbin>)
    ensures multiset(Greedy(score, current, unvisited)) == multiset(unvisited)
    decreases |unvisited|
  {
    if unvisited != [] {
      var k := BestIndex(score, current, unvisited, |unvisited|);
      GreedyPermutes(score, unvisited[k], RemoveAt(unvisited, k));
    }
  }

  /** Phase 1 visits every bin exactly once. */
  lemma InitialRoutePermutes(dist: Metric, bins: seq<Dustbin>)
    requires |bins| > 0
    ensures multiset(InitialRoute(dist, bins)) == multiset(bins)
  {
    var order := Sorting.ByFillDescending(bins);
    GreedyPermutes(ScoreOf(dist), order[0], order[1..]);
    assert order == [order[0]] + order[1..];
  }

  /** Phase 1 starts at a bin of maximal fill. */
  lemma InitialRouteStartsFullest(dist: Metric, bins: seq<Dustbin>)
    requires |bins| > 0
    ensures forall m :: 0 <= m < |bins| ==> bins[m].fill <= InitialRoute(dist, bins)[0].fill
  {
    Sorting.FullestFirst(bins);
  }

  /** The first greedy choice scores at least as much as every later stop. */
  lemma GreedyHeadIsBest(score: (Dustbin, Dustbin) -> real, current: Dustbin, unvisited: seq<Dustbin>)
    requires unvisited != []
    ensures var g := Greedy(score, current, unvisited);
      forall m :: 0 <= m < |g| ==> score(current, g[m]) <= score(current, g[0])
  {
    var g := Greedy(score, current, unvisited);
    GreedyPermutes(score, current, unvisited);
    forall m | 0 <= m < |g| ensures score(current, g[m]) <= score(current, g[0]) {
      assert g[m] in multiset(unvisited);
      var i :| 0 <= i < |unvisited| && unvisited[i] == g[m];
    }
  }

  /** A greedy tour stays greedy behind a stop from which its first stop
      scores best. */
  lemma GreedyCons<T>(score: (T, T) -> real, current: T, tail: seq<T>)
    requires IsGreedy(score, tail)
    requires forall m :: 0 <= m < |tail| ==> score(current, tail[m]) <= score(current, tail[0])
    ensures IsGreedy(score, [current] + tail)
  {
    var route := [current] + tail;
    forall k, m | 1 <= k < m < |route|
      ensures score(route[k - 1], route[m]) <= score(route[k - 1], route[k])
    {
      if k == 1 {
        assert route[m] == tail[m - 1];
      } else {
        assert route[k - 1] == tail[k - 2] && route[k] == tail[k - 1] && route[m] == tail[m - 1];
      }
    }
  }

  lemma {:induction false} GreedyIsGreedy(score: (Dustbin, Dustbin) -> real, current: Dustbin, unvisited: seq<Dustbin>)
    ensures IsGreedy(score, [current] + Greedy(score, current, unvisited))
    decreases |unvisited|
  {
    if unvisited != [] {
      var k := BestIndex(score, current, unvisited, |unvisited|);
      var next := unvisited[k];
      var tail := Greedy(score, current, unvisited);
      GreedyIsGreedy(score, next, RemoveAt(unvisited, k));
      assert tail == [next] + Greedy(score, next, RemoveAt(unvisited, k));
      GreedyHeadIsBest(score, current, unvisited);
      GreedyCons(score, current, tail);
    }
  }

  /** Every step of phase 1 is a best-scoring choice among the bins left. */
  lemma InitialRouteIsGreedy(dist: Metric, bins: seq<Dustbin>)
    requires |bins| > 0
    ensures IsGreedy(ScoreOf(dist), InitialRoute(dist, bins))
  {
    var order := Sorting.ByFillDescending(bins);
    GreedyIsGreedy(ScoreOf(dist), order[0], order[1..]);
  }
}
