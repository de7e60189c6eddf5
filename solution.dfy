/**
 * The Solution class: an ordering of garbage bags and the capacity of a bin.
 * It unites the inline members of Solution.h and the out-of-line members of
 * Solution.cpp (get_bins and the bin-grouped to_string).
 */
module Solutions {
  import opened Packing
  import opened Render

  /** The ordering with the bags at positions i and j exchanged. */
  function SwapAt<T>(s: seq<T>, i: int, j: int): (r: seq<T>)
    requires 0 <= i < |s| && 0 <= j < |s|
    ensures |r| == |s| && r[i] == s[j] && r[j] == s[i]
    ensures forall k :: 0 <= k < |s| && k != i && k != j ==> r[k] == s[k]
  {
    s[i := s[j]][j := s[i]]
  }

  /** Swapping two positions keeps the elements with their multiplicities. */
  lemma SwapAtPermutes<T>(s: seq<T>, i: int, j: int)
    requires 0 <= i < |s| && 0 <= j < |s|
    ensures multiset(SwapAt(s, i, j)) == multiset(s)
  {
  }

  /** Swapping the same pair twice gives back the original ordering. */
  lemma SwapTwiceRestores<T>(s: seq<T>, i: int, j: int)
    requires 0 <= i < |s| && 0 <= j < |s|
    ensures SwapAt(SwapAt(s, i, j), i, j) == s
  {
    var r := SwapAt(SwapAt(s, i, j), i, j);
    assert forall k :: 0 <= k < |s| ==> r[k] == s[k];
  }

  /** The position after i on a ring of n positions, written without the modulo of the source. */
  function Successor(i: int, n: int): (k: int)
    requires 0 <= i < n
    ensures 0 <= k < n
  {
    if i + 1 < n then i + 1 else 0
  }

  /** Successor is the source's (i + 1) % n. */
  lemma SuccessorIsModulo(i: int, n: int)
    requires 0 <= i < n
    ensures Successor(i, n) == (i + 1) % n
  {
    if i + 1 == n {
      assert (i + 1) % n == 0;
    }
  }

  /** The i-th neighbour: the bag at i swapped with its successor, the last one with the first. */
  function Neighbor(s: seq<int>, i: int): (r: seq<int>)
    requires 0 <= i < |s|
    ensures multiset(r) == multiset(s)
  {
    SwapAtPermutes(s, i, Successor(i, |s|));
    SwapAt(s, i, Successor(i, |s|))
  }

  /** A single bag has itself as its only neighbour. */
  lemma SingleBagNeighbor(s: seq<int>)
    requires |s| == 1
    ensures Neighbor(s, 0) == s
  {
  }

  /** The filled-bin counts of the neighbours, in neighbour order. */
  function NeighborCounts(s: seq<int>, limit: int): (cs: seq<int>)
    ensures |cs| == |s|
    ensures forall i :: 0 <= i < |s| ==> cs[i] == Count(Neighbor(s, i), limit)
  {
    seq(|s|, i requires 0 <= i < |s| => Count(Neighbor(s, i), limit))
  }

  /**
   * The element std::max_element picks under the comparator `a > b`: it
   * moves to a later element only when that one is strictly smaller, so it
   * ends on the first minimum.
   */
  function FirstMinIndex(cs: seq<int>): (k: nat)
    requires |cs| >= 1
    ensures k < |cs|
    ensures forall j :: 0 <= j < |cs| ==> cs[k] <= cs[j]
    ensures forall j :: 0 <= j < k ==> cs[j] > cs[k]
  {
    if |cs| == 1 then 0
    else
      var k := FirstMinIndex(cs[..|cs| - 1]);
      if cs[k] > cs[|cs| - 1] then |cs| - 1 else k
  }

  /** Appending one element moves the pick only to a strictly smaller element. */
  lemma FirstMinIndexAppend(cs: seq<int>, c: int)
    requires |cs| >= 1
    ensures FirstMinIndex(cs + [c]) == var k := FirstMinIndex(cs); if cs[k] > c then |cs| else k
  {
    assert (cs + [c])[..|cs|] == cs;
  }

  lemma AppendWeightStep(prefix: string, ws: seq<int>, i: int, before: string, after: string)
    requires 0 <= i < |ws|
    requires i == 0 ==> before == prefix + JoinWeights(ws[..i])
    requires i > 0 ==> before == prefix + JoinWeights(ws[..i]) + ", "
    requires after == before + IntString(ws[i])
    ensures after == prefix + JoinWeights(ws[..i + 1])
  {
    JoinWeightsPrefix(ws, i);
    if i == 0 {
      assert ws[..i] == [];
    }
  }

  /** The weight loop shared by both to_string versions: weights appended with ", " between them. */
  method AppendJoinedWeights(prefix: string, ws: seq<int>) returns (str: string)
    ensures str == prefix + JoinWeights(ws)
  {
    str := prefix;
    var firstBag := true;
    var i := 0;
    while i < |ws|
      invariant 0 <= i <= |ws|
      invariant firstBag == (i == 0)
      invariant str == prefix + JoinWeights(ws[..i])
    {
      if !firstBag {
        str := str + ", ";
      } else {
        firstBag := false;
      }
      ghost var before := str;
      str := str + IntString(ws[i]);
      AppendWeightStep(prefix, ws, i, before, str);
      i := i + 1;
    }
    assert ws[..|ws|] == ws;
  }

  /** Concatenation regrouped. */
  lemma ConcatRegroups<T>(a: seq<T>, b: seq<T>, c: seq<T>, d: seq<T>)
    ensures a + b + c + d == a + (b + c + d)
  {
  }

  /** The first bin's weights follow the prefix directly. */
  lemma AppendFirstBin(prefix: string, bins: seq<seq<int>>, before: string, after: string)
    requires |bins| >= 1
    requires before == prefix + JoinBins(bins[..0])
    requires after == before + JoinWeights(bins[0])
    ensures after == prefix + JoinBins(bins[..1])
  {
    assert bins[..0] == [];
    JoinBinsPrefix(bins, 0);
  }

  /** A later bin's weights follow the bins before it and a " | ". */
  lemma AppendLaterBin(prefix: string, bins: seq<seq<int>>, k: int, before: string, after: string)
    requires 0 < k < |bins|
    requires before == prefix + JoinBins(bins[..k]) + " | "
    requires after == before + JoinWeights(bins[k])
    ensures after == prefix + JoinBins(bins[..k + 1])
  {
    JoinBinsPrefix(bins, k);
    ConcatRegroups(prefix, JoinBins(bins[..k]), " | ", JoinWeights(bins[k]));
  }

  /** The bin loop of Solution.cpp's to_string: bins appended with " | " between them. */
  method AppendJoinedBins(prefix: string, bins: seq<seq<int>>) returns (str: string)
    ensures str == prefix + JoinBins(bins)
  {
    str := prefix;
    var firstBin := true;
    var k := 0;
    while k < |bins|
      invariant 0 <= k <= |bins|
      invariant firstBin == (k == 0)
      invariant str == prefix + JoinBins(bins[..k])
    {
      if !firstBin {
        str := str + " | ";
      } else {
        firstBin := false;
      }
      ghost var before := str;
      str := AppendJoinedWeights(str, bins[k]);
      if k == 0 {
        AppendFirstBin(prefix, bins, before, str);
      } else {
        AppendLaterBin(prefix, bins, k, before, str);
      }
      k := k + 1;
    }
    assert bins[..|bins|] == bins;
  }

  class Solution {
    const limit: int
    var bags: seq<int>

    constructor (limit: int, bags: seq<int>)
      ensures this.limit == limit && this.bags == bags
    {
      this.limit := limit;
      this.bags := bags;
    }

    method GetGarbageBags() returns (r: seq<int>)
      ensures r == bags
    {
      r := bags;
    }

    /** generate_random_bag_index, given the engine's raw draw. */
    function RandomBagIndex(draw: nat): (r: int)
      reads this
      requires |bags| >= 1
      ensures 0 <= r < |bags|
    {
      draw % |bags|
    }

    method SwapGarbageBags(index1: int, index2: int)
      requires 0 <= index1 < |bags| && 0 <= index2 < |bags|
      modifies this
      ensures bags == SwapAt(old(bags), index1, index2)
    {
      bags := bags[index1 := bags[index2]][index2 := bags[index1]];
    }

    /** operator=: only the bags are copied; the receiver keeps its own capacity. */
    method Assign(solution: Solution)
      modifies this
      ensures bags == old(solution.bags)
    {
      bags := solution.bags;
    }

    /** One fresh neighbour per position, in position order; the receiver is untouched. */
    method GenerateNeighbors() returns (neighbors: seq<Solution>)
      ensures |neighbors| == |bags|
      ensures forall i :: 0 <= i < |neighbors| ==>
        fresh(neighbors[i]) && neighbors[i].limit == limit && neighbors[i].bags == Neighbor(bags, i)
    {
      neighbors := [];
      var size := |bags|;
      var i := 0;
      while i < size
        invariant 0 <= i <= size
        invariant |neighbors| == i
        invariant forall k :: 0 <= k < i ==>
          fresh(neighbors[k]) && neighbors[k].limit == limit && neighbors[k].bags == Neighbor(bags, k)
      {
        var neighbor := new Solution(limit, bags);
        SuccessorIsModulo(i, size);
        neighbor.SwapGarbageBags(i, (i + 1) % size);
        neighbors := neighbors + [neighbor];
        i := i + 1;
      }
    }

    /** The neighbour at the drawn position: the same solution generate_neighbors puts there. */
    method GenerateRandomNeighbor(draw: nat) returns (neighbor: Solution)
      requires |bags| >= 1
      ensures fresh(neighbor) && neighbor.limit == limit
      ensures neighbor.bags == Neighbor(bags, RandomBagIndex(draw))
    {
      neighbor := new Solution(limit, bags);
      var randomIndex := RandomBagIndex(draw);
      var nextIndex := (randomIndex + 1) % |bags|;
      SuccessorIsModulo(randomIndex, |bags|);
      neighbor.SwapGarbageBags(randomIndex, nextIndex);
    }

    /** The counter of Solution.h. */
    method FilledBinCount() returns (count: int)
      ensures count == Count(bags, limit)
    {
      var binCount := 1;
      var weightInLastBin := 0;
      var i := 0;
      while i < |bags|
        invariant 0 <= i <= |bags|
        invariant Tally(binCount, weightInLastBin) == CountScan(bags[..i], limit)
      {
        var bagWeight := bags[i];
        assert bags[..i + 1][..i] == bags[..i];
        if weightInLastBin + bagWeight > limit {
          binCount := binCount + 1;
          weightInLastBin := bagWeight;
        } else {
          weightInLastBin := weightInLastBin + bagWeight;
        }
        i := i + 1;
      }
      assert bags[..|bags|] == bags;
      count := binCount;
    }

    /** get_bins of Solution.cpp. */
    method GetBins() returns (bins: seq<seq<int>>)
      ensures bins == Bins(bags, limit)
    {
      bins := [[]];
      var weightInLastBin := 0;
      var i := 0;
      while i < |bags|
        invariant 0 <= i <= |bags|
        invariant Packed(bins, weightInLastBin) == BinScan(bags[..i], limit)
      {
        var bagWeight := bags[i];
        assert bags[..i + 1][..i] == bags[..i];
        if weightInLastBin + bagWeight > limit {
          bins := bins + [[bagWeight]];
          weightInLastBin := bagWeight;
        } else {
          bins := bins[..|bins| - 1] + [bins[|bins| - 1] + [bagWeight]];
          weightInLastBin := weightInLastBin + bagWeight;
        }
        i := i + 1;
      }
      assert bags[..|bags|] == bags;
    }

    /** get_filled_bin_count of Solution.cpp: the number of bins, equal to the Solution.h counter. */
    method FilledBinCountFromBins() returns (count: int)
      ensures count == |Bins(bags, limit)|
      ensures count == Count(bags, limit)
    {
      var bins := GetBins();
      count := |bins|;
      CountIsNumberOfBins(bags, limit);
    }

    /** to_string of Solution.h. */
    method ToString() returns (str: string)
      ensures str == FlatString(bags, limit)
    {
      var count := FilledBinCount();
      str := Opening + IntString(count) + Middle;
      str := AppendJoinedWeights(str, bags);
      str := str + Closing;
    }

    /** to_string of Solution.cpp: bins separated by " | ". */
    method ToBinString() returns (str: string)
      ensures str == BinnedString(bags, limit)
    {
      var count := FilledBinCountFromBins();
      str := Opening + IntString(count) + Middle;
      var bins := GetBins();
      str := AppendJoinedBins(str, bins);
      str := str + Closing;
    }
  }

  /** The filled-bin counts of a list of solutions, in list order. */
  function CountsOf(solutions: seq<Solution>): (cs: seq<int>)
    reads solutions
    ensures |cs| == |solutions|
    ensures forall i :: 0 <= i < |solutions| ==> cs[i] == Count(solutions[i].bags, solutions[i].limit)
  {
    if solutions == [] then []
    else
      var last := solutions[|solutions| - 1];
      CountsOf(solutions[..|solutions| - 1]) + [Count(last.bags, last.limit)]
  }

  /** The filled-bin counts of a list of orderings, in list order. */
  function BagCounts(bss: seq<seq<int>>, limit: int): (cs: seq<int>)
    ensures |cs| == |bss|
    ensures forall i :: 0 <= i < |bss| ==> cs[i] == Count(bss[i], limit)
  {
    seq(|bss|, i requires 0 <= i < |bss| => Count(bss[i], limit))
  }

  /** Bin counts given solution by solution are the counts of the list. */
  lemma CountsAre(solutions: seq<Solution>, cs: seq<int>)
    requires |cs| == |solutions|
    requires forall k :: 0 <= k < |solutions| ==> cs[k] == Count(solutions[k].bags, solutions[k].limit)
    ensures cs == CountsOf(solutions)
  {
  }

  /**
   * std::max_element over solutions with the comparator
   * `a.get_filled_bin_count() > b.get_filled_bin_count()`: the position of
   * the first solution with the fewest filled bins.
   */
  method MaxElementByFewestBins(solutions: seq<Solution>) returns (largest: nat)
    requires |solutions| >= 1
    ensures largest == FirstMinIndex(CountsOf(solutions))
  {
    largest := 0;
    var largestCount := solutions[0].FilledBinCount();
    ghost var seen := [largestCount];
    var i := 1;
    while i < |solutions|
      invariant 1 <= i <= |solutions|
      invariant |seen| == i
      invariant forall k :: 0 <= k < i ==> seen[k] == Count(solutions[k].bags, solutions[k].limit)
      invariant largest == FirstMinIndex(seen)
      invariant largestCount == seen[largest]
    {
      var count := solutions[i].FilledBinCount();
      FirstMinIndexAppend(seen, count);
      if largestCount > count {
        largest := i;
        largestCount := count;
      }
      seen := seen + [count];
      i := i + 1;
    }
    CountsAre(solutions, seen);
  }
}
