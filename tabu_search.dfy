/**
 * The tabu-search SolutionFactory. Each iteration moves to the first
 * neighbour with the fewest filled bins among those that match no entry of
 * the tabu list; the list keeps the most recent solutions (all of them when
 * its size is not positive), and with backtracking an empty neighbourhood
 * sends the search back to the previously visited solution.
 */
module TabuSearch {
  import opened Packing
  import opened Instance
  import opened Solutions

  /** is_tabu_infinite */
  predicate IsTabuInfinite(tabuSize: int)
  {
    tabuSize <= 0
  }

  /** The tabu entry's weights agree, position by position, with the first weights of the neighbour. */
  predicate MatchesEntry(tabuBags: seq<int>, neighborBags: seq<int>)
  {
    |tabuBags| <= |neighborBags| && tabuBags == neighborBags[..|tabuBags|]
  }

  /** The predicate handed to std::remove_if: some tabu entry matches the neighbour. */
  predicate InTabu(bags: seq<int>, tabu: seq<seq<int>>)
  {
    exists k :: 0 <= k < |tabu| && MatchesEntry(tabu[k], bags)
  }

  /** Among orderings of one length, matching a tabu entry is being one of the entries. */
  lemma InTabuIsMembership(bags: seq<int>, tabu: seq<seq<int>>)
    requires forall k :: 0 <= k < |tabu| ==> |tabu[k]| == |bags|
    ensures InTabu(bags, tabu) <==> bags in tabu
  {
    assert bags[..|bags|] == bags;
    if bags in tabu {
      var k :| 0 <= k < |tabu| && tabu[k] == bags;
      assert MatchesEntry(tabu[k], bags);
    }
  }

  /** The tabu test of one neighbour: an outer loop over the entries, an inner one over the weights. */
  method IsTabu(neighbor: Solution, tabu: seq<seq<int>>) returns (found: bool)
    requires forall k :: 0 <= k < |tabu| ==> |tabu[k]| <= |neighbor.bags|
    ensures found == InTabu(neighbor.bags, tabu)
  {
    var k := 0;
    while k < |tabu|
      invariant 0 <= k <= |tabu|
      invariant forall j :: 0 <= j < k ==> !MatchesEntry(tabu[j], neighbor.bags)
    {
      var tabuBags := tabu[k];
      var neighborBags := neighbor.GetGarbageBags();
      found := true;
      var i := 0;
      while i < |tabuBags|
        invariant 0 <= i <= |tabuBags|
        invariant tabuBags[..i] == neighborBags[..i]
      {
        if tabuBags[i] != neighborBags[i] {
          found := false;
          break;
        }
        assert tabuBags[..i + 1] == tabuBags[..i] + [tabuBags[i]];
        assert neighborBags[..i + 1] == neighborBags[..i] + [neighborBags[i]];
        i := i + 1;
      }
      if found {
        assert tabuBags[..|tabuBags|] == tabuBags;
        assert MatchesEntry(tabu[k], neighbor.bags);
        return;
      }
      assert neighborBags[..|tabuBags|][i] == neighborBags[i];
      k := k + 1;
    }
    found := false;
  }

  /**
   * The erase/remove_if pass over the neighbours: the kept neighbours are
   * the ones matching no tabu entry, in their original order (`positions`
   * says where each came from).
   */
  method RemoveTabu(neighbors: seq<Solution>, tabu: seq<seq<int>>) returns (kept: seq<Solution>, ghost positions: seq<int>)
    requires forall i, k :: 0 <= i < |neighbors| && 0 <= k < |tabu| ==> |tabu[k]| <= |neighbors[i].bags|
    ensures |positions| == |kept|
    ensures forall m :: 0 <= m < |kept| ==>
      0 <= positions[m] < |neighbors| && kept[m] == neighbors[positions[m]] && !InTabu(kept[m].bags, tabu)
    ensures forall m, n :: 0 <= m < n < |kept| ==> positions[m] < positions[n]
    ensures forall i :: 0 <= i < |neighbors| && !InTabu(neighbors[i].bags, tabu) ==> i in positions
  {
    kept := [];
    positions := [];
    var i := 0;
    while i < |neighbors|
      invariant 0 <= i <= |neighbors|
      invariant |positions| == |kept|
      invariant forall m :: 0 <= m < |kept| ==>
        0 <= positions[m] < i && kept[m] == neighbors[positions[m]] && !InTabu(kept[m].bags, tabu)
      invariant forall m, n :: 0 <= m < n < |kept| ==> positions[m] < positions[n]
      invariant forall i' :: 0 <= i' < i && !InTabu(neighbors[i'].bags, tabu) ==> i' in positions
    {
      var tabuNeighbor := IsTabu(neighbors[i], tabu);
      if !tabuNeighbor {
        kept := kept + [neighbors[i]];
        positions := positions + [i];
      }
      i := i + 1;
    }
  }

  /** Which neighbour positions match no tabu entry. */
  function NonTabuMoves(bags: seq<int>, tabu: seq<seq<int>>): (allowed: seq<bool>)
    ensures |allowed| == |bags|
    ensures forall i :: 0 <= i < |bags| ==> allowed[i] == !InTabu(Neighbor(bags, i), tabu)
  {
    seq(|bags|, i requires 0 <= i < |bags| => !InTabu(Neighbor(bags, i), tabu))
  }

  /** j is the first allowed position holding the least value among the allowed ones. */
  ghost predicate IsFirstMinAmong(cs: seq<int>, allowed: seq<bool>, j: int)
    requires |allowed| == |cs|
  {
    && 0 <= j < |cs| && allowed[j]
    && (forall i :: 0 <= i < |cs| && allowed[i] ==> cs[j] <= cs[i])
    && (forall i :: 0 <= i < j && allowed[i] ==> cs[i] > cs[j])
  }

  /** At most one position is the first least allowed one. */
  lemma FirstMinAmongIsUnique(cs: seq<int>, allowed: seq<bool>, j1: int, j2: int)
    requires |allowed| == |cs|
    requires IsFirstMinAmong(cs, allowed, j1) && IsFirstMinAmong(cs, allowed, j2)
    ensures j1 == j2
  {
  }

  /**
   * Position j is the move the search takes: its neighbour matches no tabu
   * entry, and it is the first such position with the fewest filled bins.
   */
  ghost predicate IsFirstBestMove(bags: seq<int>, tabu: seq<seq<int>>, j: int)
  {
    IsFirstMinAmong(NeighborCounts(bags, BinWeightLimit), NonTabuMoves(bags, tabu), j)
  }

  /**
   * The first allowed position holding the least value among the allowed
   * ones, or -1 when no position is allowed.
   */
  function FirstMinAllowed(cs: seq<int>, allowed: seq<bool>): (j: int)
    requires |allowed| == |cs|
    ensures j == -1 <==> forall i :: 0 <= i < |cs| ==> !allowed[i]
    ensures j != -1 ==> IsFirstMinAmong(cs, allowed, j)
    decreases |cs|
  {
    if |cs| == 0 then -1
    else
      var n := |cs| - 1;
      var k := FirstMinAllowed(cs[..n], allowed[..n]);
      if !allowed[n] then k
      else if k == -1 || cs[n] < cs[k] then n
      else k
  }

  /**
   * The move the search takes from an ordering: the position of the first
   * non-tabu neighbour with the fewest filled bins, or -1 when every
   * neighbour is tabu.
   */
  function BestMove(bags: seq<int>, tabu: seq<seq<int>>): (j: int)
    ensures j == -1 <==> forall i :: 0 <= i < |bags| ==> InTabu(Neighbor(bags, i), tabu)
    ensures j != -1 ==> IsFirstBestMove(bags, tabu, j)
  {
    FirstMinAllowed(NeighborCounts(bags, BinWeightLimit), NonTabuMoves(bags, tabu))
  }

  /**
   * What a stable filter hands on: the positions of the allowed entries, in
   * increasing order, each with its value.
   */
  ghost predicate IsStableFilter(all: seq<int>, allowed: seq<bool>, positions: seq<int>, cs: seq<int>)
    requires |allowed| == |all|
  {
    && |cs| == |positions|
    && (forall m :: 0 <= m < |positions| ==>
          0 <= positions[m] < |all| && allowed[positions[m]] && cs[m] == all[positions[m]])
    && (forall m, n :: 0 <= m < n < |positions| ==> positions[m] < positions[n])
    && (forall i :: 0 <= i < |all| && allowed[i] ==> i in positions)
  }

  /**
   * std::max_element with the `>` comparator over the filtered list picks the
   * first least value among the allowed entries of the whole list.
   */
  lemma {:induction false} FilteredFirstMin(all: seq<int>, allowed: seq<bool>, positions: seq<int>, cs: seq<int>)
    requires |allowed| == |all|
    requires IsStableFilter(all, allowed, positions, cs) && |cs| >= 1
    ensures IsFirstMinAmong(all, allowed, positions[FirstMinIndex(cs)])
  {
    var k := FirstMinIndex(cs);
    var j := positions[k];
    forall i | 0 <= i < |all| && allowed[i]
      ensures all[j] <= all[i]
      ensures i < j ==> all[i] > all[j]
    {
      var m :| 0 <= m < |positions| && positions[m] == i;
      assert cs[k] <= cs[m];
      if i < j {
        assert m < k;
      }
    }
  }

  /**
   * The neighbours left after filtering, with their positions, form a stable
   * filter of the neighbours' bin counts by the non-tabu moves.
   */
  lemma KeptNeighborsFilter(bags: seq<int>, tabu: seq<seq<int>>, neighbors: seq<Solution>, kept: seq<Solution>,
                            positions: seq<int>)
    requires |neighbors| == |bags|
    requires forall i :: 0 <= i < |neighbors| ==>
      neighbors[i].limit == BinWeightLimit && neighbors[i].bags == Neighbor(bags, i)
    requires |positions| == |kept|
    requires forall m :: 0 <= m < |kept| ==>
      0 <= positions[m] < |neighbors| && kept[m] == neighbors[positions[m]] && !InTabu(kept[m].bags, tabu)
    requires forall m, n :: 0 <= m < n < |kept| ==> positions[m] < positions[n]
    requires forall i :: 0 <= i < |neighbors| && !InTabu(neighbors[i].bags, tabu) ==> i in positions
    ensures IsStableFilter(NeighborCounts(bags, BinWeightLimit), NonTabuMoves(bags, tabu), positions, CountsOf(kept))
  {
    var all := NeighborCounts(bags, BinWeightLimit);
    var allowed := NonTabuMoves(bags, tabu);
    var cs := CountsOf(kept);
    forall i | 0 <= i < |all| && allowed[i]
      ensures i in positions
    {
      assert neighbors[i].bags == Neighbor(bags, i);
    }
    forall m | 0 <= m < |positions|
      ensures 0 <= positions[m] < |all| && allowed[positions[m]] && cs[m] == all[positions[m]]
    {
      assert kept[m].bags == Neighbor(bags, positions[m]);
    }
  }

  /**
   * Over a stable filter of the neighbours' counts by the non-tabu moves,
   * the filter is empty exactly when every neighbour is tabu, and the first
   * least count of the filter sits at the first best move.
   */
  lemma FilterChoosesBestMove(bags: seq<int>, tabu: seq<seq<int>>, positions: seq<int>, cs: seq<int>)
    requires IsStableFilter(NeighborCounts(bags, BinWeightLimit), NonTabuMoves(bags, tabu), positions, cs)
    ensures |cs| == 0 <==> forall i :: 0 <= i < |bags| ==> InTabu(Neighbor(bags, i), tabu)
    ensures |cs| >= 1 ==> IsFirstBestMove(bags, tabu, positions[FirstMinIndex(cs)])
  {
    var all := NeighborCounts(bags, BinWeightLimit);
    var allowed := NonTabuMoves(bags, tabu);
    if |cs| >= 1 {
      FilteredFirstMin(all, allowed, positions, cs);
      assert allowed[positions[0]];
    }
  }

  /** BestMove is the first best move when there is one, and -1 when every neighbour is tabu. */
  lemma BestMoveIsTheChoice(bags: seq<int>, tabu: seq<seq<int>>, j: int)
    ensures (forall i :: 0 <= i < |bags| ==> InTabu(Neighbor(bags, i), tabu)) ==> BestMove(bags, tabu) == -1
    ensures IsFirstBestMove(bags, tabu, j) ==> BestMove(bags, tabu) == j
  {
    if IsFirstBestMove(bags, tabu, j) {
      var all := NeighborCounts(bags, BinWeightLimit);
      var allowed := NonTabuMoves(bags, tabu);
      assert allowed[j];
      FirstMinAmongIsUnique(all, allowed, j, BestMove(bags, tabu));
    }
  }

  /**
   * The neighbours of the current solution that match no tabu entry, in
   * position order, with their positions.
   */
  method NonTabuNeighbors(currentSolution: Solution, tabu: seq<seq<int>>)
    returns (kept: seq<Solution>, ghost positions: seq<int>)
    requires forall k :: 0 <= k < |tabu| ==> |tabu[k]| == |currentSolution.bags|
    requires currentSolution.limit == BinWeightLimit
    ensures |positions| == |kept|
    ensures forall m :: 0 <= m < |kept| ==>
      && fresh(kept[m]) && kept[m].limit == BinWeightLimit
      && 0 <= positions[m] < |currentSolution.bags| && kept[m].bags == Neighbor(currentSolution.bags, positions[m])
    ensures |kept| == 0 <==> forall i :: 0 <= i < |currentSolution.bags| ==> InTabu(Neighbor(currentSolution.bags, i), tabu)
    ensures |kept| >= 1 ==> IsFirstBestMove(currentSolution.bags, tabu, positions[FirstMinIndex(CountsOf(kept))])
  {
    var neighbors := currentSolution.GenerateNeighbors();
    kept, positions := RemoveTabu(neighbors, tabu);
    KeptNeighborsFilter(currentSolution.bags, tabu, neighbors, kept, positions);
    FilterChoosesBestMove(currentSolution.bags, tabu, positions, CountsOf(kept));
  }

  /**
   * One iteration's choice: the neighbours of the current solution, filtered
   * against the tabu list, and std::max_element with the `>` comparator over
   * what is left. There is no choice exactly when every neighbour is tabu.
   */
  method SelectNeighbor(currentSolution: Solution, tabu: seq<seq<int>>) returns (newSolution: Solution?, ghost j: int)
    requires forall k :: 0 <= k < |tabu| ==> |tabu[k]| == |currentSolution.bags|
    requires currentSolution.limit == BinWeightLimit
    ensures newSolution == null <==>
      forall i :: 0 <= i < |currentSolution.bags| ==> InTabu(Neighbor(currentSolution.bags, i), tabu)
    ensures newSolution != null ==>
      && fresh(newSolution) && newSolution.limit == BinWeightLimit
      && IsFirstBestMove(currentSolution.bags, tabu, j)
      && newSolution.bags == Neighbor(currentSolution.bags, j)
  {
    var kept, positions := NonTabuNeighbors(currentSolution, tabu);
    ghost var counts := CountsOf(kept);
    if |kept| == 0 {
      newSolution := null;
      j := 0;
      return;
    }
    var k := MaxElementByFewestBins(kept);
    assert k == FirstMinIndex(counts);
    j := positions[k];
    assert IsFirstBestMove(currentSolution.bags, tabu, j);
    newSolution := kept[k];
    assert newSolution.bags == Neighbor(currentSolution.bags, j);
  }

  /**
   * Where a running best that is replaced on ties (`<=`) ends: the last
   * position holding the minimum.
   */
  function LastMinIndex(cs: seq<int>): (k: nat)
    requires |cs| >= 1
    ensures k < |cs|
    ensures forall j :: 0 <= j < |cs| ==> cs[k] <= cs[j]
    ensures forall j :: k < j < |cs| ==> cs[j] > cs[k]
  {
    if |cs| == 1 then 0
    else
      var k := LastMinIndex(cs[..|cs| - 1]);
      if cs[|cs| - 1] <= cs[k] then |cs| - 1 else k
  }

  /** The best of the visited orderings. */
  function BestVisited(history: seq<seq<int>>): seq<int>
    requires |history| >= 1
  {
    history[LastMinIndex(BagCounts(history, BinWeightLimit))]
  }

  /** Visiting one more ordering replaces the best when it has no more bins. */
  lemma BestVisitedStep(history: seq<seq<int>>, next: seq<int>)
    requires |history| >= 1
    ensures BestVisited(history + [next]) ==
      if Count(next, BinWeightLimit) <= Count(BestVisited(history), BinWeightLimit) then next
      else BestVisited(history)
  {
    var cs := BagCounts(history + [next], BinWeightLimit);
    assert cs[..|history|] == BagCounts(history, BinWeightLimit);
  }

  /** The best visited ordering has no more bins than any visited one, the first included. */
  lemma BestVisitedIsMinimal(history: seq<seq<int>>)
    requires |history| >= 1
    ensures BestVisited(history) in history
    ensures forall k :: 0 <= k < |history| ==>
      Count(BestVisited(history), BinWeightLimit) <= Count(history[k], BinWeightLimit)
  {
    var cs := BagCounts(history, BinWeightLimit);
    var m := LastMinIndex(cs);
    forall k | 0 <= k < |history|
      ensures Count(BestVisited(history), BinWeightLimit) <= Count(history[k], BinWeightLimit)
    {
      assert cs[m] <= cs[k];
    }
  }

  /** How many solutions the tabu list holds once `visited` solutions have been pushed. */
  function TabuLength(visited: int, tabuSize: int): int
  {
    if IsTabuInfinite(tabuSize) || visited <= tabuSize then visited else tabuSize
  }

  /**
   * What the search keeps true of the orderings it has visited: the first is
   * the bag list, all are reorderings of it, none was in the tabu list when
   * it was selected, and the tabu list holds the most recent ones.
   */
  ghost predicate SearchHistory(garbageBags: seq<int>, tabuSize: int, history: seq<seq<int>>, tabu: seq<seq<int>>)
  {
    && |history| >= 1 && history[0] == garbageBags
    && (forall k :: 0 <= k < |history| ==> multiset(history[k]) == multiset(garbageBags))
    && (forall k :: 1 <= k < |history| ==> history[k] !in history[k - TabuLength(k, tabuSize)..k])
    && |tabu| == TabuLength(|history|, tabuSize)
    && tabu == history[|history| - |tabu|..]
  }

  /** The starting ordering is both the whole history and the whole tabu list. */
  lemma SearchHistoryStart(garbageBags: seq<int>, tabuSize: int)
    ensures SearchHistory(garbageBags, tabuSize, [garbageBags], [garbageBags])
  {
    assert [garbageBags][1 - TabuLength(1, tabuSize)..] == [garbageBags];
  }

  /** Every tabu entry is a reordering of the bag list. */
  lemma TabuEntriesArePermutations(garbageBags: seq<int>, tabuSize: int, history: seq<seq<int>>, tabu: seq<seq<int>>)
    requires SearchHistory(garbageBags, tabuSize, history, tabu)
    ensures forall k :: 0 <= k < |tabu| ==> multiset(tabu[k]) == multiset(garbageBags)
    ensures forall k :: 0 <= k < |tabu| ==> |tabu[k]| == |garbageBags|
  {
    forall k | 0 <= k < |tabu|
      ensures multiset(tabu[k]) == multiset(garbageBags)
    {
      assert tabu[k] == history[|history| - |tabu| + k];
    }
    forall k | 0 <= k < |tabu|
      ensures |tabu[k]| == |garbageBags|
    {
      assert |multiset(tabu[k])| == |multiset(garbageBags)|;
    }
  }

  /**
   * Selecting a reordering that is not in the tabu list, pushing it and
   * evicting the oldest entry when a finite list overflows keeps the history
   * facts.
   */
  lemma SearchHistorySelect(garbageBags: seq<int>, tabuSize: int, history: seq<seq<int>>, tabu: seq<seq<int>>, next: seq<int>)
    requires SearchHistory(garbageBags, tabuSize, history, tabu)
    requires multiset(next) == multiset(garbageBags)
    requires next !in tabu
    ensures var pushed := tabu + [next];
      SearchHistory(garbageBags, tabuSize, history + [next],
        if !IsTabuInfinite(tabuSize) && |pushed| > tabuSize then pushed[1..] else pushed)
  {
    var h := history + [next];
    var pushed := tabu + [next];
    var t := if !IsTabuInfinite(tabuSize) && |pushed| > tabuSize then pushed[1..] else pushed;
    NoveltyAfterSelect(tabuSize, history, tabu, next);
    assert |h| >= 1 && h[0] == garbageBags;
    assert forall k :: 0 <= k < |h| ==> multiset(h[k]) == multiset(garbageBags);
    assert |t| == TabuLength(|h|, tabuSize);
    assert t == h[|h| - |t|..];
  }

  /** A selected ordering that is not in the tabu list keeps every visited ordering new when it was selected. */
  lemma NoveltyAfterSelect(tabuSize: int, history: seq<seq<int>>, tabu: seq<seq<int>>, next: seq<int>)
    requires |history| >= 1 && |tabu| == TabuLength(|history|, tabuSize) && tabu == history[|history| - |tabu|..]
    requires forall k :: 1 <= k < |history| ==> history[k] !in history[k - TabuLength(k, tabuSize)..k]
    requires next !in tabu
    ensures var h := history + [next];
      forall k :: 1 <= k < |h| ==> h[k] !in h[k - TabuLength(k, tabuSize)..k]
  {
    var h := history + [next];
    assert h[|history| - TabuLength(|history|, tabuSize)..|history|] == tabu;
    forall k | 1 <= k < |h|
      ensures h[k] !in h[k - TabuLength(k, tabuSize)..k]
    {
      if k < |history| {
        assert h[k - TabuLength(k, tabuSize)..k] == history[k - TabuLength(k, tabuSize)..k];
      }
    }
  }

  /** Every ordering in the list is a reordering of the bag list. */
  ghost predicate AllReorder(orderings: seq<seq<int>>, garbageBags: seq<int>)
  {
    forall k :: 0 <= k < |orderings| ==> multiset(orderings[k]) == multiset(garbageBags)
  }

  lemma AllReorderPush(orderings: seq<seq<int>>, garbageBags: seq<int>, next: seq<int>)
    requires AllReorder(orderings, garbageBags) && multiset(next) == multiset(garbageBags)
    ensures AllReorder(orderings + [next], garbageBags)
  {
  }

  lemma AllReorderPop(orderings: seq<seq<int>>, garbageBags: seq<int>)
    requires AllReorder(orderings, garbageBags) && |orderings| >= 1
    ensures AllReorder(orderings[..|orderings| - 1], garbageBags)
    ensures multiset(orderings[|orderings| - 1]) == multiset(garbageBags)
  {
  }

  /** Where the search stands between two iterations. */
  datatype SearchState = SearchState(
    current: seq<int>,          // current_solution
    tabu: seq<seq<int>>,        // the tabu list, oldest first
    previous: seq<seq<int>>,    // previous_solutions, the backtracking stack
    history: seq<seq<int>>)     // the starting ordering, then every selected neighbour

  /** The tabu list after pushing an ordering and evicting the oldest entry of a full finite list. */
  function PushTabu(tabu: seq<seq<int>>, next: seq<int>, tabuSize: int): (r: seq<seq<int>>)
    ensures r == tabu + [next] || (|tabu| >= 1 && r == tabu[1..] + [next])
    ensures IsTabuInfinite(tabuSize) ==> r == tabu + [next]
  {
    var pushed := tabu + [next];
    if !IsTabuInfinite(tabuSize) && |pushed| > tabuSize then pushed[1..] else pushed
  }

  /** The search state before the first iteration: the bag list is current, tabu and on the stack. */
  function StartState(garbageBags: seq<int>): SearchState
  {
    SearchState(garbageBags, [garbageBags], [garbageBags], [garbageBags])
  }

  /** Moving to a selected neighbour: it is pushed on the tabu list, the stack and the history. */
  function MoveTo(s: SearchState, next: seq<int>, tabuSize: int): SearchState
  {
    SearchState(next, PushTabu(s.tabu, next, tabuSize), s.previous + [next], s.history + [next])
  }

  /** Backtracking: the top of the stack becomes current and is popped. */
  function Backtrack(s: SearchState): SearchState
    requires |s.previous| >= 1
  {
    var top := |s.previous| - 1;
    SearchState(s.previous[top], s.tabu, s.previous[..top], s.history)
  }

  /** What one iteration does: return best_solution, or continue from a new state. */
  datatype Iteration = Returned | Continued(next: SearchState)

  /** A rule that picks the neighbour to move to, or -1 for none. */
  type MoveRule = (seq<int>, seq<seq<int>>) -> int

  /** The rule only ever picks a neighbour position whose neighbour matches no tabu entry. */
  ghost predicate PicksNonTabu(rule: MoveRule)
  {
    forall bags: seq<int>, tabu: seq<seq<int>> ::
      var j := rule(bags, tabu);
      j == -1 || (0 <= j < |bags| && !InTabu(Neighbor(bags, j), tabu))
  }

  /** The search's own rule picks only non-tabu neighbours. */
  lemma BestMovePicksNonTabu()
    ensures PicksNonTabu(BestMove)
  {
    forall bags: seq<int>, tabu: seq<seq<int>>
      ensures var j := BestMove(bags, tabu); j == -1 || (0 <= j < |bags| && !InTabu(Neighbor(bags, j), tabu))
    {
      var j := BestMove(bags, tabu);
      if j != -1 {
        assert NonTabuMoves(bags, tabu)[j];
      }
    }
  }

  /**
   * One iteration: move to the neighbour the rule picks; when it picks
   * none, return, unless the search backtracks and the stack is non-empty.
   */
  function Iterate(rule: MoveRule, s: SearchState, tabuSize: int, backtracking: bool): Iteration
  {
    var j := rule(s.current, s.tabu);
    if 0 <= j < |s.current| then Continued(MoveTo(s, Neighbor(s.current, j), tabuSize))
    else if !backtracking || |s.previous| == 0 then Returned
    else Continued(Backtrack(s))
  }

  /** How one iteration acts on search states. */
  type Step = SearchState -> Iteration

  /** The iterations of a search with the given rule, tabu size and backtracking switch. */
  function SearchStep(rule: MoveRule, tabuSize: int, backtracking: bool): Step
  {
    s => Iterate(rule, s, tabuSize, backtracking)
  }

  /** The state a run is in after `remaining` more iterations, or the state in which it returns early. */
  ghost function Run(step: Step, s: SearchState, remaining: nat): SearchState
    decreases remaining
  {
    if remaining == 0 then s
    else
      match step(s)
      case Returned => s
      case Continued(t) => Run(step, t, remaining - 1)
  }

  /** A trace of a run: every state after the first is the one the step continues to from the state before it. */
  ghost predicate IsTrace(step: Step, trace: seq<SearchState>)
  {
    && |trace| >= 1
    && forall k :: 0 <= k < |trace| - 1 ==> step(trace[k]) == Continued(trace[k + 1])
  }

  /** A trace grows by the state its last state continues to. */
  lemma TraceExtends(step: Step, trace: seq<SearchState>, next: SearchState)
    requires IsTrace(step, trace) && step(trace[|trace| - 1]) == Continued(next)
    ensures IsTrace(step, trace + [next])
  {
    var t := trace + [next];
    forall k | 0 <= k < |t| - 1
      ensures step(t[k]) == Continued(t[k + 1])
    {
      if k < |trace| - 1 {
        assert t[k] == trace[k] && t[k + 1] == trace[k + 1];
      }
    }
  }

  /** A trace of the search grows by the state Iterate continues to from its last state. */
  lemma SearchTraceExtends(trace: seq<SearchState>, tabuSize: int, backtracking: bool, next: SearchState)
    requires IsTrace(SearchStep(BestMove, tabuSize, backtracking), trace)
    requires Iterate(BestMove, trace[|trace| - 1], tabuSize, backtracking) == Continued(next)
    ensures IsTrace(SearchStep(BestMove, tabuSize, backtracking), trace + [next])
  {
    TraceExtends(SearchStep(BestMove, tabuSize, backtracking), trace, next);
  }

  /** An iteration that continues hands the rest of the run to the state it continues to. */
  lemma RunAdvance(step: Step, s: SearchState, t: SearchState, remaining: nat)
    requires step(s) == Continued(t)
    ensures Run(step, s, remaining + 1) == Run(step, t, remaining)
  {
  }

  /** A run that returns from its first iteration, or has no iteration left, ends where it is. */
  lemma RunReturns(step: Step, s: SearchState, remaining: nat)
    requires remaining == 0 || step(s) == Returned
    ensures Run(step, s, remaining) == s
  {
  }

  /**
   * A trace that stops once the iterations are used up or the step returns
   * is the run: Run from its first state ends at its last.
   */
  lemma {:induction false} TraceIsRun(step: Step, trace: seq<SearchState>, remaining: nat)
    requires IsTrace(step, trace) && |trace| - 1 <= remaining
    requires |trace| - 1 == remaining || step(trace[|trace| - 1]) == Returned
    ensures Run(step, trace[0], remaining) == trace[|trace| - 1]
    decreases |trace|
  {
    if |trace| > 1 {
      var rest := trace[1..];
      forall k | 0 <= k < |rest| - 1
        ensures step(rest[k]) == Continued(rest[k + 1])
      {
        assert rest[k] == trace[k + 1] && rest[k + 1] == trace[k + 2];
      }
      TraceIsRun(step, rest, remaining - 1);
      RunAdvance(step, trace[0], trace[1], remaining - 1);
    } else {
      RunReturns(step, trace[0], remaining);
    }
  }

  /** What every state of a search from the bag list satisfies. */
  ghost predicate Reachable(garbageBags: seq<int>, tabuSize: int, s: SearchState)
  {
    && SearchHistory(garbageBags, tabuSize, s.history, s.tabu)
    && multiset(s.current) == multiset(garbageBags)
    && AllReorder(s.previous, garbageBags)
  }

  /** Moving to a neighbour that matches no tabu entry keeps the state reachable. */
  lemma MoveKeepsReachable(garbageBags: seq<int>, tabuSize: int, s: SearchState, j: int)
    requires Reachable(garbageBags, tabuSize, s)
    requires 0 <= j < |s.current| && !InTabu(Neighbor(s.current, j), s.tabu)
    ensures Reachable(garbageBags, tabuSize, MoveTo(s, Neighbor(s.current, j), tabuSize))
  {
    var next := Neighbor(s.current, j);
    TabuEntriesArePermutations(garbageBags, tabuSize, s.history, s.tabu);
    assert |s.current| == |garbageBags| by {
      assert |multiset(s.current)| == |multiset(garbageBags)|;
    }
    InTabuIsMembership(next, s.tabu);
    SearchHistorySelect(garbageBags, tabuSize, s.history, s.tabu, next);
    AllReorderPush(s.previous, garbageBags, next);
  }

  /** Backtracking keeps the state reachable. */
  lemma BacktrackKeepsReachable(garbageBags: seq<int>, tabuSize: int, s: SearchState)
    requires Reachable(garbageBags, tabuSize, s) && |s.previous| >= 1
    ensures Reachable(garbageBags, tabuSize, Backtrack(s))
  {
    AllReorderPop(s.previous, garbageBags);
  }

  /** Every iteration that does not return leads to a reachable state that only adds to the history. */
  lemma IterateKeepsReachable(rule: MoveRule, garbageBags: seq<int>, tabuSize: int, backtracking: bool, s: SearchState)
    requires PicksNonTabu(rule) && Reachable(garbageBags, tabuSize, s)
    ensures match Iterate(rule, s, tabuSize, backtracking)
      case Returned => true
      case Continued(t) =>
        Reachable(garbageBags, tabuSize, t) && |t.history| <= |s.history| + 1 && s.history <= t.history
  {
    var j := rule(s.current, s.tabu);
    if 0 <= j < |s.current| {
      MoveKeepsReachable(garbageBags, tabuSize, s, j);
    } else if backtracking && |s.previous| != 0 {
      BacktrackKeepsReachable(garbageBags, tabuSize, s);
    }
  }

  /** A property of states that every iteration keeps holds of every state a run reaches. */
  lemma {:induction false} RunKeeps(step: Step, inv: SearchState -> bool, s: SearchState, remaining: nat)
    requires inv(s)
    requires forall x :: inv(x) && step(x).Continued? ==> inv(step(x).next)
    ensures inv(Run(step, s, remaining))
    decreases remaining
  {
    if remaining > 0 {
      match step(s)
      case Returned =>
      case Continued(t) =>
        RunKeeps(step, inv, t, remaining - 1);
    }
  }

  /**
   * Every state a run reaches from a reachable state is reachable: the
   * orderings visited stay reorderings of the bag list, none was in the
   * tabu list when it was selected, and the tabu list is the history's
   * most recent part; the history only grows.
   */
  lemma RunKeepsReachable(rule: MoveRule, garbageBags: seq<int>, tabuSize: int, backtracking: bool,
                          s: SearchState, remaining: nat)
    requires PicksNonTabu(rule) && Reachable(garbageBags, tabuSize, s)
    ensures Reachable(garbageBags, tabuSize, Run(SearchStep(rule, tabuSize, backtracking), s, remaining))
    ensures s.history <= Run(SearchStep(rule, tabuSize, backtracking), s, remaining).history
  {
    var step := SearchStep(rule, tabuSize, backtracking);
    var inv := (x: SearchState) => Reachable(garbageBags, tabuSize, x) && s.history <= x.history;
    forall x | inv(x) && step(x).Continued?
      ensures inv(step(x).next)
    {
      IterateKeepsReachable(rule, garbageBags, tabuSize, backtracking, x);
    }
    RunKeeps(step, inv, s, remaining);
  }

  /** An iteration whose rule picks a neighbour position moves to that neighbour. */
  lemma StepMoves(rule: MoveRule, s: SearchState, tabuSize: int, backtracking: bool, j: int)
    requires rule(s.current, s.tabu) == j && 0 <= j < |s.current|
    ensures SearchStep(rule, tabuSize, backtracking)(s) == Continued(MoveTo(s, Neighbor(s.current, j), tabuSize))
  {
  }

  /** An iteration whose rule picks nothing backtracks when backtracking is on and the stack is not empty. */
  lemma StepBacktracks(rule: MoveRule, s: SearchState, tabuSize: int)
    requires rule(s.current, s.tabu) == -1 && |s.previous| >= 1
    ensures SearchStep(rule, tabuSize, true)(s) == Continued(Backtrack(s))
  {
  }

  /**
   * After a move the top of the stack is the new current solution, so when
   * the next iteration finds every neighbour tabu, backtracking pops that
   * entry and stays where it is.
   */
  lemma FirstBacktrackStaysPut(s: SearchState, tabuSize: int, remaining: nat)
    requires remaining >= 2
    requires BestMove(s.current, s.tabu) != -1
    requires var next := Neighbor(s.current, BestMove(s.current, s.tabu));
      BestMove(next, PushTabu(s.tabu, next, tabuSize)) == -1
    ensures var next := Neighbor(s.current, BestMove(s.current, s.tabu));
      Run(SearchStep(BestMove, tabuSize, true), s, remaining) ==
      Run(SearchStep(BestMove, tabuSize, true),
          SearchState(next, PushTabu(s.tabu, next, tabuSize), s.previous, s.history + [next]), remaining - 2)
  {
    var step := SearchStep(BestMove, tabuSize, true);
    var j := BestMove(s.current, s.tabu);
    var next := Neighbor(s.current, j);
    var moved := MoveTo(s, next, tabuSize);
    StepMoves(BestMove, s, tabuSize, true, j);
    StepBacktracks(BestMove, moved, tabuSize);
    assert moved.previous[..|moved.previous| - 1] == s.previous;
    RunAdvance(step, s, moved, remaining - 1);
    RunAdvance(step, moved, Backtrack(moved), remaining - 2);
  }

  /** Without backtracking, the search returns in a state whose neighbours are all tabu. */
  lemma StuckSearchReturns(s: SearchState, tabuSize: int, remaining: nat)
    requires forall i :: 0 <= i < |s.current| ==> InTabu(Neighbor(s.current, i), s.tabu)
    ensures Run(SearchStep(BestMove, tabuSize, false), s, remaining) == s
  {
    assert BestMove(s.current, s.tabu) == -1;
    RunReturns(SearchStep(BestMove, tabuSize, false), s, remaining);
  }

  /** In a reachable state every tabu entry is as long as the current ordering. */
  lemma ReachableLengths(garbageBags: seq<int>, tabuSize: int, s: SearchState)
    requires Reachable(garbageBags, tabuSize, s)
    ensures forall k :: 0 <= k < |s.tabu| ==> |s.tabu[k]| == |s.current|
  {
    TabuEntriesArePermutations(garbageBags, tabuSize, s.history, s.tabu);
    assert |s.current| == |garbageBags| by {
      assert |multiset(s.current)| == |multiset(garbageBags)|;
    }
  }

  /** Backtracking: the top of the stack is copied into the current solution and popped. */
  method BacktrackTo(currentSolution: Solution, previousSolutions: seq<seq<int>>) returns (popped: seq<seq<int>>)
    requires |previousSolutions| >= 1
    modifies currentSolution
    ensures currentSolution.bags == previousSolutions[|previousSolutions| - 1]
    ensures popped == previousSolutions[..|previousSolutions| - 1]
  {
    var top := new Solution(BinWeightLimit, previousSolutions[|previousSolutions| - 1]);
    currentSolution.Assign(top);
    popped := previousSolutions[..|previousSolutions| - 1];
  }

  /**
   * The end of an iteration that found a neighbour: it replaces the best
   * solution when it has no more bins, is pushed on the tabu list (whose
   * oldest entry a full finite list drops) and the stack, and becomes
   * current.
   */
  method MoveToNeighbor(currentSolution: Solution, bestSolution: Solution, newSolution: Solution,
                        tabu: seq<seq<int>>, previousSolutions: seq<seq<int>>, tabuSize: int, ghost history: seq<seq<int>>)
    returns (nextTabu: seq<seq<int>>, nextPrevious: seq<seq<int>>)
    requires currentSolution != bestSolution && newSolution != currentSolution && newSolution != bestSolution
    requires newSolution.limit == BinWeightLimit && bestSolution.limit == BinWeightLimit
    requires |history| >= 1 && bestSolution.bags == BestVisited(history)
    modifies currentSolution, bestSolution
    ensures currentSolution.bags == newSolution.bags
    ensures bestSolution.bags == BestVisited(history + [newSolution.bags])
    ensures nextTabu == PushTabu(tabu, newSolution.bags, tabuSize)
    ensures nextPrevious == previousSolutions + [newSolution.bags]
  {
    BestVisitedStep(history, newSolution.bags);
    var newCount := newSolution.FilledBinCount();
    var bestCount := bestSolution.FilledBinCount();
    if newCount <= bestCount {
      bestSolution.Assign(newSolution);
    }
    nextTabu := tabu + [newSolution.bags];
    nextPrevious := previousSolutions + [newSolution.bags];
    currentSolution.Assign(newSolution);
    if !IsTabuInfinite(tabuSize) && |nextTabu| > tabuSize {
      nextTabu := nextTabu[1..];
    }
  }

  /**
   * One iteration of the search loop on the state s the variables hold:
   * it returns exactly when Iterate does, and otherwise leaves the
   * variables holding the state Iterate continues from.
   */
  method SearchIteration(currentSolution: Solution, bestSolution: Solution, tabu: seq<seq<int>>,
                         previousSolutions: seq<seq<int>>, tabuSize: int, backtracking: bool,
                         ghost garbageBags: seq<int>, ghost s: SearchState)
    returns (returned: bool, nextTabu: seq<seq<int>>, nextPrevious: seq<seq<int>>, ghost next: SearchState)
    requires currentSolution != bestSolution
    requires currentSolution.limit == BinWeightLimit && bestSolution.limit == BinWeightLimit
    requires s == SearchState(currentSolution.bags, tabu, previousSolutions, s.history)
    requires Reachable(garbageBags, tabuSize, s)
    requires bestSolution.bags == BestVisited(s.history)
    modifies currentSolution, bestSolution
    ensures returned <==> Iterate(BestMove, s, tabuSize, backtracking) == Returned
    ensures !returned ==>
      && Iterate(BestMove, s, tabuSize, backtracking) == Continued(next)
      && next == SearchState(currentSolution.bags, nextTabu, nextPrevious, next.history)
      && Reachable(garbageBags, tabuSize, next)
      && |next.history| <= |s.history| + 1
      && bestSolution.bags == BestVisited(next.history)
    ensures returned ==> bestSolution.bags == BestVisited(s.history)
  {
    ReachableLengths(garbageBags, tabuSize, s);
    BestMovePicksNonTabu();
    IterateKeepsReachable(BestMove, garbageBags, tabuSize, backtracking, s);
    nextTabu, nextPrevious, next := tabu, previousSolutions, s;
    ghost var j;
    var newSolution;
    newSolution, j := SelectNeighbor(currentSolution, tabu);
    BestMoveIsTheChoice(s.current, tabu, j);
    if newSolution == null {
      if !backtracking || |previousSolutions| == 0 {
        return true, nextTabu, nextPrevious, next;
      }
      nextPrevious := BacktrackTo(currentSolution, previousSolutions);
      next := Backtrack(s);
    } else {
      ghost var newBags := newSolution.bags;
      nextTabu, nextPrevious := MoveToNeighbor(currentSolution, bestSolution, newSolution, tabu, previousSolutions,
                                               tabuSize, s.history);
      next := MoveTo(s, newBags, tabuSize);
    }
    returned := false;
  }

  /**
   * generate_tabu_search_solution over the given bag list. `trace` lists
   * the search state at the start and after every iteration that went on:
   * each is the one Iterate reaches from the one before by BestMove, and
   * the trace stops when the iterations are used up (none when the count
   * is negative) or an iteration returns. `history` and `finalTabu` are
   * those of its last state, and the result is the last visited ordering
   * with the fewest bins.
   */
  method GenerateTabuSearchSolution(garbageBags: seq<int>, tabuSize: int, iterationCount: int, backtracking: bool)
    returns (bestSolution: Solution, ghost trace: seq<SearchState>, ghost history: seq<seq<int>>,
             ghost finalTabu: seq<seq<int>>)
    ensures fresh(bestSolution) && bestSolution.limit == BinWeightLimit
    ensures IsTrace(SearchStep(BestMove, tabuSize, backtracking), trace) && trace[0] == StartState(garbageBags)
    ensures |trace| - 1 <= (if iterationCount < 0 then 0 else iterationCount)
    ensures |trace| - 1 == (if iterationCount < 0 then 0 else iterationCount)
         || Iterate(BestMove, trace[|trace| - 1], tabuSize, backtracking) == Returned
    ensures history == trace[|trace| - 1].history && finalTabu == trace[|trace| - 1].tabu
    ensures SearchHistory(garbageBags, tabuSize, history, finalTabu)
    ensures |history| <= 1 + (if iterationCount < 0 then 0 else iterationCount)
    ensures bestSolution.bags == BestVisited(history)
  {
    var currentSolution := new Solution(BinWeightLimit, garbageBags);
    bestSolution := new Solution(BinWeightLimit, currentSolution.bags);
    var tabu := [currentSolution.bags];
    var previousSolutions := [currentSolution.bags];
    ghost var state := StartState(garbageBags);
    trace := [state];
    SearchHistoryStart(garbageBags, tabuSize);
    var iteration := 0;
    while iteration < iterationCount
      invariant 0 <= iteration <= (if iterationCount < 0 then 0 else iterationCount) && |trace| == iteration + 1
      invariant |state.history| <= 1 + iteration
      invariant fresh(currentSolution) && fresh(bestSolution) && currentSolution != bestSolution
      invariant currentSolution.limit == BinWeightLimit && bestSolution.limit == BinWeightLimit
      invariant IsTrace(SearchStep(BestMove, tabuSize, backtracking), trace) && trace[0] == StartState(garbageBags)
      invariant state == trace[|trace| - 1]
      invariant state == SearchState(currentSolution.bags, tabu, previousSolutions, state.history)
      invariant Reachable(garbageBags, tabuSize, state)
      invariant bestSolution.bags == BestVisited(state.history)
    {
      ghost var s := state;
      var returned;
      returned, tabu, previousSolutions, state :=
        SearchIteration(currentSolution, bestSolution, tabu, previousSolutions, tabuSize, backtracking, garbageBags, s);
      if returned {
        history, finalTabu := s.history, s.tabu;
        return;
      }
      SearchTraceExtends(trace, tabuSize, backtracking, state);
      trace := trace + [state];
      iteration := iteration + 1;
    }
    history, finalTabu := state.history, state.tabu;
  }

  /**
   * The search is the run of BestMove: its history and final tabu list are
   * those Run reaches from the starting state.
   */
  lemma SearchIsRun(garbageBags: seq<int>, tabuSize: int, iterationCount: int, backtracking: bool,
                    trace: seq<SearchState>, history: seq<seq<int>>, finalTabu: seq<seq<int>>)
    requires IsTrace(SearchStep(BestMove, tabuSize, backtracking), trace) && trace[0] == StartState(garbageBags)
    requires |trace| - 1 <= (if iterationCount < 0 then 0 else iterationCount)
    requires |trace| - 1 == (if iterationCount < 0 then 0 else iterationCount)
          || Iterate(BestMove, trace[|trace| - 1], tabuSize, backtracking) == Returned
    requires history == trace[|trace| - 1].history && finalTabu == trace[|trace| - 1].tabu
    ensures var final := Run(SearchStep(BestMove, tabuSize, backtracking), StartState(garbageBags),
                             if iterationCount < 0 then 0 else iterationCount);
      history == final.history && finalTabu == final.tabu
  {
    TraceIsRun(SearchStep(BestMove, tabuSize, backtracking), trace, if iterationCount < 0 then 0 else iterationCount);
  }

  /** What the search promises: a reordering of the bag list with no more bins than the list as given. */
  lemma TabuSearchResult(garbageBags: seq<int>, tabuSize: int, history: seq<seq<int>>, tabu: seq<seq<int>>)
    requires SearchHistory(garbageBags, tabuSize, history, tabu)
    ensures multiset(BestVisited(history)) == multiset(garbageBags)
    ensures Count(BestVisited(history), BinWeightLimit) <= Count(garbageBags, BinWeightLimit)
  {
    BestVisitedIsMinimal(history);
  }
}
