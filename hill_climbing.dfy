/**
 * The hill-climbing SolutionFactory: a random climb that keeps swapping a
 * drawn adjacent pair while the bin count does not grow, and a deterministic
 * climb that moves to the best neighbour while it strictly improves.
 * The random engine is replaced by the list of indices it draws.
 */
module HillClimbing {
  import opened Packing
  import opened Instance
  import opened Solutions

  /** Indices the uniform distribution over [0, count - 1] can return. */
  predicate AreBagIndices(draws: seq<int>, count: int)
  {
    forall i :: 0 <= i < |draws| ==> 0 <= draws[i] < count
  }

  /** swap_random_adjacent_bag_pair: a copy of the solution with the drawn bag swapped with its successor. */
  method SwapRandomAdjacentBagPair(solution: Solution, randomIndex: int) returns (r: Solution)
    requires |solution.bags| == GarbageBagCount
    requires 0 <= randomIndex < GarbageBagCount
    ensures fresh(r) && r.limit == solution.limit
    ensures r.bags == Neighbor(solution.bags, randomIndex)
  {
    r := new Solution(solution.limit, solution.bags);
    var nextIndex := (randomIndex + 1) % GarbageBagCount;
    r.SwapGarbageBags(randomIndex, nextIndex);
  }

  /** The filled-bin counts of the neighbours generate_neighbors returns are the neighbour counts of the ordering. */
  lemma NeighborsCounted(bags: seq<int>, limit: int, neighbors: seq<Solution>)
    requires |neighbors| == |bags|
    requires forall i :: 0 <= i < |neighbors| ==> neighbors[i].limit == limit && neighbors[i].bags == Neighbor(bags, i)
    ensures CountsOf(neighbors) == NeighborCounts(bags, limit)
  {
    var cs, ns := CountsOf(neighbors), NeighborCounts(bags, limit);
    forall i | 0 <= i < |cs|
      ensures cs[i] == ns[i]
    {
    }
    assert cs == ns;
  }

  /** get_best_neighbor: the first neighbour with the fewest filled bins. */
  method GetBestNeighbor(solution: Solution) returns (best: Solution)
    requires |solution.bags| >= 1
    ensures best.limit == solution.limit
    ensures best.bags == Neighbor(solution.bags, FirstMinIndex(NeighborCounts(solution.bags, solution.limit)))
  {
    var neighbors := solution.GenerateNeighbors();
    var k := MaxElementByFewestBins(neighbors);
    NeighborsCounted(solution.bags, solution.limit, neighbors);
    best := neighbors[k];
  }

  /** The swap at position i gives an ordering with more filled bins. */
  predicate Worsens(bags: seq<int>, i: int)
    requires 0 <= i < |bags|
  {
    Count(Neighbor(bags, i), BinWeightLimit) > Count(bags, BinWeightLimit)
  }

  /**
   * The ordering the random climb ends on when the engine draws the given
   * indices: a draw whose neighbour has no more bins is taken, the first
   * draw whose neighbour has more bins ends the climb.
   */
  function RandomClimb(bags: seq<int>, draws: seq<int>): seq<int>
    requires AreBagIndices(draws, |bags|)
    decreases |draws|
  {
    if draws == [] || Worsens(bags, draws[0]) then bags
    else RandomClimb(Neighbor(bags, draws[0]), draws[1..])
  }

  /** A draw whose neighbour has no more bins is taken and the climb goes on from the neighbour. */
  lemma RandomClimbMoves(bags: seq<int>, draws: seq<int>, k: int)
    requires AreBagIndices(draws, |bags|) && 0 <= k < |draws|
    requires !Worsens(bags, draws[k])
    ensures RandomClimb(bags, draws[k..]) == RandomClimb(Neighbor(bags, draws[k]), draws[k + 1..])
  {
    assert draws[k..][1..] == draws[k + 1..];
  }

  /** A draw whose neighbour has more bins ends the climb where it is. */
  lemma RandomClimbStops(bags: seq<int>, draws: seq<int>, k: int)
    requires AreBagIndices(draws, |bags|) && 0 <= k < |draws|
    requires Worsens(bags, draws[k])
    ensures RandomClimb(bags, draws[k..]) == bags
  {
  }

  /** The random climb never ends with more bins than it started with. */
  lemma {:induction false} RandomClimbNeverWorse(bags: seq<int>, draws: seq<int>)
    requires AreBagIndices(draws, |bags|)
    ensures Count(RandomClimb(bags, draws), BinWeightLimit) <= Count(bags, BinWeightLimit)
    decreases |draws|
  {
    if draws != [] && !Worsens(bags, draws[0]) {
      RandomClimbNeverWorse(Neighbor(bags, draws[0]), draws[1..]);
    }
  }

  /** The random climb only reorders the bags it starts with. */
  lemma {:induction false} RandomClimbPermutes(bags: seq<int>, draws: seq<int>)
    requires AreBagIndices(draws, |bags|)
    ensures |RandomClimb(bags, draws)| == |bags|
    ensures multiset(RandomClimb(bags, draws)) == multiset(bags)
    decreases |draws|
  {
    if draws != [] && !Worsens(bags, draws[0]) {
      RandomClimbPermutes(Neighbor(bags, draws[0]), draws[1..]);
    }
  }

  /**
   * generate_random_hillclimbing_solution. The climb stops at the first draw
   * whose neighbour is worse; `used` is the number of draws taken before it,
   * and when the draws run out first the climb is cut off there.
   */
  method GenerateRandomHillclimbingSolution(draws: seq<int>) returns (bestSolution: Solution, used: nat)
    requires AreBagIndices(draws, GarbageBagCount)
    ensures fresh(bestSolution) && bestSolution.limit == BinWeightLimit
    ensures bestSolution.bags == RandomClimb(GarbageBags, draws)
    ensures |bestSolution.bags| == GarbageBagCount
    ensures used <= |draws|
    ensures used < |draws| ==> Worsens(bestSolution.bags, draws[used])
  {
    bestSolution := new Solution(BinWeightLimit, GarbageBags);
    used := 0;
    while used < |draws|
      invariant used <= |draws|
      invariant fresh(bestSolution) && bestSolution.limit == BinWeightLimit
      invariant |bestSolution.bags| == GarbageBagCount
      invariant RandomClimb(bestSolution.bags, draws[used..]) == RandomClimb(GarbageBags, draws)
    {
      var newSolution := SwapRandomAdjacentBagPair(bestSolution, draws[used]);
      var newCount := newSolution.FilledBinCount();
      var bestCount := bestSolution.FilledBinCount();
      if newCount <= bestCount {
        RandomClimbMoves(bestSolution.bags, draws, used);
        bestSolution.Assign(newSolution);
      } else {
        RandomClimbStops(bestSolution.bags, draws, used);
        return;
      }
      used := used + 1;
    }
    assert draws[used..] == [];
  }

  /** What the random climb promises: a reordering of the instance with no more bins than the listed order. */
  lemma RandomHillclimbingResult(draws: seq<int>)
    requires AreBagIndices(draws, GarbageBagCount)
    ensures IsPermutationOfInstance(RandomClimb(GarbageBags, draws))
    ensures Count(RandomClimb(GarbageBags, draws), BinWeightLimit) <= Count(GarbageBags, BinWeightLimit)
  {
    RandomClimbPermutes(GarbageBags, draws);
    RandomClimbNeverWorse(GarbageBags, draws);
  }

  /** No neighbour of the ordering has fewer filled bins. */
  ghost predicate IsLocalOptimum(bags: seq<int>)
  {
    forall i :: 0 <= i < |bags| ==> Count(Neighbor(bags, i), BinWeightLimit) >= Count(bags, BinWeightLimit)
  }

  /**
   * When the best neighbour is no better, no neighbour is: the deterministic
   * climb stops exactly at a local optimum.
   */
  lemma BestNeighborDecidesOptimum(bags: seq<int>, best: seq<int>)
    requires |bags| >= 1
    requires best == Neighbor(bags, FirstMinIndex(NeighborCounts(bags, BinWeightLimit)))
    ensures IsLocalOptimum(bags) <==> Count(best, BinWeightLimit) >= Count(bags, BinWeightLimit)
  {
    var cs := NeighborCounts(bags, BinWeightLimit);
    var k := FirstMinIndex(cs);
    if cs[k] >= Count(bags, BinWeightLimit) {
      forall i | 0 <= i < |bags|
        ensures Count(Neighbor(bags, i), BinWeightLimit) >= Count(bags, BinWeightLimit)
      {
        assert cs[k] <= cs[i];
      }
    }
  }

  /**
   * generate_deterministic_hillclimbing_solution: moves to the best neighbour
   * while that has strictly fewer bins, so it ends on an ordering no
   * neighbour of which improves.
   */
  method GenerateDeterministicHillclimbingSolution() returns (bestSolution: Solution)
    ensures fresh(bestSolution) && bestSolution.limit == BinWeightLimit
    ensures IsPermutationOfInstance(bestSolution.bags)
    ensures Count(bestSolution.bags, BinWeightLimit) <= Count(GarbageBags, BinWeightLimit)
    ensures IsLocalOptimum(bestSolution.bags)
  {
    bestSolution := new Solution(BinWeightLimit, GarbageBags);
    while true
      invariant fresh(bestSolution) && bestSolution.limit == BinWeightLimit
      invariant IsPermutationOfInstance(bestSolution.bags)
      invariant |bestSolution.bags| >= 1
      invariant Count(bestSolution.bags, BinWeightLimit) <= Count(GarbageBags, BinWeightLimit)
      decreases Count(bestSolution.bags, BinWeightLimit)
    {
      var newSolution := GetBestNeighbor(bestSolution);
      var newCount := newSolution.FilledBinCount();
      var bestCount := bestSolution.FilledBinCount();
      if newCount < bestCount {
        bestSolution.Assign(newSolution);
      } else {
        BestNeighborDecidesOptimum(bestSolution.bags, newSolution.bags);
        return;
      }
    }
  }
}
