# Garbage-bag bin packing: solutions, local searches and the genetic algorithm

The repository packs garbage bags into bins of capacity 100 by trying orderings
of the bags: an ordering is packed first-fit-in-order (a bag joins the last
bin while it fits, and otherwise opens a new bin), and every search minimises
the number of filled bins. This project models the following in Dafny:

- the `Solution` class: an ordering plus its bin weight limit. It provides
  neighbours (swap one bag with its successor, cyclically), a random
  neighbour, the two bin counters, the bin list and the two string
  renderings;
- hill climbing: a random variant and a deterministic variant;
- tabu search, with and without backtracking;
- the genetic algorithm:
  - the count-per-weight map and the availability-guarded insertion;
  - the `Crossover` class with its completion step;
  - bag striping and bin striping;
  - the two mutations and the two ending conditions;
  - population generation, tournament selection, offspring generation and
    the generation loop.

What the source updates in place is updated in place here: `Solution` and
`Crossover` are classes whose methods modify their fields. The global random
engines are `Engine` objects holding a fixed stream of raw values and a
cursor. Every loop of the source is a `while` loop with its invariants. Each
method is proved against a specification function: `Count`/`Bins` for the
packers, `Offer`/`TopUp`/`Complete` for the crossover,
`FisherYates`/`Selected`/`Children`/`Mutations` for the genetic algorithm,
`RandomClimb`/`BestVisited` for the searches. The properties are proved
about those functions:

- every search returns a reordering of the bags with no more bins than it
  started with;
- the deterministic climb stops exactly at a local optimum;
- tabu search selects the first neighbour with the fewest bins that matches
  no tabu entry;
- both crossovers and both mutations keep every solution a reordering of the
  instance;
- the count map determines the bags;
- every count and weight the two renderings print reads back as its int.

Some behaviours of the source are worth knowing. Each is modelled as written:

- Best neighbour: hill climbing and tabu search pick with `std::max_element`
  and the comparator `a > b`. That returns the first neighbour with the
  fewest filled bins.
- Tabu matching compares a tabu entry with the first positions of the
  neighbour, over the entry's length. Every entry has the neighbour's
  length, so this is exact matching (TabuSearch.InTabuIsMembership).
- Mutation: besides the adjacent swap, the genetic algorithm offers bin
  shuffling. Both are modelled.
- In tabu search with backtracking, the last entry of `previous_solutions`
  is the current solution itself. So the first backtrack after a move
  returns to the solution it is already at (TabuSearch.FirstBacktrackStaysPut).
  Only a later backtrack reaches an earlier solution.
- Tabu search returns early only when no neighbour is left and backtracking
  is off or the stack is empty. Otherwise it runs the given number of
  iterations, and a backtrack uses up an iteration.

## Model

| member | source | states |
|---|---|---|
| Packing.CountScan | src/Solution.h:68-84 | the Solution.h counter after any ordering has at least one bin and at most one more bin than there are bags |
| Packing.BinScan | src/Solution.cpp:56-74 | get_bins always returns at least one bin (it starts from one empty bin) |
| Packing.ScansAgree | src/Solution.cpp:76-78 | the Solution.h counter equals the number of bins get_bins builds, and its carried load equals get_bins's carried load, for every ordering |
| Packing.CountIsNumberOfBins | src/Solution.cpp:76-78 | the two get_filled_bin_count versions agree: the count is the length of the bin list |
| Packing.LoadIsLastBin | src/Solution.cpp:59-70 | the carried weight_in_last_bin is the total weight of the last bin |
| Packing.BinsFlattenToBags | src/Solution.cpp:56-74 | concatenating the bins in order gives back the ordering: get_bins loses, adds and moves no bag |
| Packing.LaterBinsNonEmpty | src/Solution.cpp:64-66 | every bin after the first holds at least one bag |
| Packing.FirstBinEmpty | src/Solution.cpp:57-66 | the first bin is empty exactly when there are no bags or the first bag alone exceeds the limit |
| Packing.BinsWithinLimit | src/Solution.cpp:64-70 | when no bag exceeds the limit, no bin's weight exceeds the limit |
| Packing.BinsAreMaximal | src/Solution.cpp:64-66 | a new bin is opened only when the next bag does not fit in the previous one (first fit in order) |
| Packing.FlattenSum | src/Solution.cpp:56-74 | the bins carry exactly the total weight of their bags |
| Packing.BinTotalsBound | src/Solution.cpp:64-70 | bins within the limit weigh at most limit times their number |
| Packing.CountBounds | src/Solution.h:68-84 | for bags of weight 1 to limit, the bin count is at most the number of bags and at least the total weight divided by the limit |
| Packing.NonEmptyBinsBound | src/Solution.cpp:64-66 | non-empty bins hold at least one bag each |
| Packing.SumOfPermutation | src/Solution.h:40-42 | reordering the bags does not change their total weight |
| Instance.InstanceBinBounds | src/genetic-algorithm/main.cpp:12-35 | every reordering of the 22 built-in bags fills between 8 and 22 bins |
| Instance.InstanceTotal | src/genetic-algorithm/main.cpp:12-35 | the built-in bags weigh 740 in total |
| Instance.InstanceWeightsFit | src/genetic-algorithm/main.cpp:12-35 | every built-in bag weighs between 1 and the bin weight limit |
| Render.NatString | src/Solution.h:100 | the decimal rendering is non-empty, all digits, and starts with '0' exactly for zero |
| Render.NatStringRoundTrip | src/Solution.h:100 | reading the decimal rendering of a natural number back gives the number |
| Render.IntStringRoundTrip | src/Solution.h:89 | reading std::to_string of any int back gives the int |
| Render.JoinWeightsPrefix | src/Solution.h:92-101 | proof step: joining one more weight appends ", " (except before the first) and its rendering |
| Render.JoinBinsPrefix | src/Solution.cpp:86-104 | proof step: joining one more bin appends " \| " (except before the first) and its joined weights |
| Render.LayoutsAgreeOnOneBin | src/Solution.cpp:80-109 | both to_string versions print the same count, and print the same text when everything fits in one bin |
| KeyOrder.Least | src/genetic-algorithm/main.cpp:243 | the least weight of a non-empty set is in the set and at most every element |
| KeyOrder.Ascending | src/genetic-algorithm/main.cpp:243 | the std::map iteration order visits exactly the keys, in strictly increasing order |
| Solutions.SwapAt | src/Solution.h:40-42 | the swap exchanges the two positions and leaves every other position alone |
| Solutions.SwapAtPermutes | src/Solution.h:40-42 | a swap keeps the bags with their multiplicities |
| Solutions.SwapTwiceRestores | src/Solution.h:40-42 | swapping the same pair twice restores the ordering |
| Solutions.Neighbor | src/Solution.h:48-51 | a neighbour holds the same bags as the ordering |
| Solutions.SingleBagNeighbor | src/Solution.h:50 | with one bag, the only neighbour is the ordering itself (the successor index wraps to 0) |
| Solutions.Successor | src/Solution.h:50 | the successor of a position is a position: the next one, or 0 after the last |
| Solutions.SuccessorIsModulo | src/Solution.h:50 | the successor is `(i + 1) % size`, as generate_neighbors computes it |
| Solutions.NeighborCounts | src/hill-climbing/main.cpp:56-61 | the counts list the filled-bin count of every neighbour, in neighbour order |
| Solutions.FirstMinIndex | src/genetic-algorithm/main.cpp:141-146 | std::max_element with a fewer-bins-is-better comparator picks a position of the least count, and no earlier position has that count |
| Solutions.FirstMinIndexAppend | src/genetic-algorithm/main.cpp:141-146 | one more candidate replaces the pick only when it is strictly better |
| Solutions.AppendJoinedWeights | src/Solution.h:92-101 | the weight loop appends the weights, ", "-separated, to the prefix |
| Solutions.AppendJoinedBins | src/Solution.cpp:86-104 | the bin loop appends the bins, " \| "-separated and each ", "-separated, to the prefix |
| Solutions.Solution.constructor | src/Solution.h:29-34 | a solution holds the limit and the bags it is given |
| Solutions.Solution.GetGarbageBags | src/Solution.h:36-38 | returns the solution's bags |
| Solutions.Solution.RandomBagIndex | src/Solution.h:20-26 | uniform_int_distribution{0, size - 1} maps a raw draw to a valid bag index |
| Solutions.Solution.SwapGarbageBags | src/Solution.h:40-42 | the bags become the old bags with the two positions exchanged |
| Solutions.Solution.Assign | src/Solution.h:108-110 | operator= copies the other solution's bags and keeps the receiver's own limit |
| Solutions.Solution.GenerateNeighbors | src/Solution.h:44-55 | one fresh solution per position; solution i is the ordering with bag i swapped with its cyclic successor; the receiver is unchanged |
| Solutions.Solution.GenerateRandomNeighbor | src/Solution.h:57-66 | the random neighbour is the neighbour at the drawn index, the same one generate_neighbors builds there |
| Solutions.Solution.FilledBinCount | src/Solution.h:68-84 | the counter loop returns the filled-bin count of the ordering |
| Solutions.Solution.GetBins | src/Solution.cpp:56-74 | the bin loop returns the first-fit-in-order bins of the ordering |
| Solutions.Solution.FilledBinCountFromBins | src/Solution.cpp:76-78 | the size of the bin list, which equals the Solution.h counter |
| Solutions.Solution.ToString | src/Solution.h:86-106 | the text is the count and the weights in order, in the Solution(...) layout |
| Solutions.Solution.ToBinString | src/Solution.cpp:80-109 | the text is the number of bins and the weights grouped by bin, in the Solution(...) layout |
| Solutions.CountsOf | src/genetic-algorithm/main.cpp:141-146 | the counts list the filled-bin count of every solution, in list order |
| Solutions.MaxElementByFewestBins | src/genetic-algorithm/main.cpp:141-146 | the max_element loop returns the first position with the fewest filled bins |
| HillClimbing.SwapRandomAdjacentBagPair | src/hill-climbing/main.cpp:47-54 | a fresh copy whose bags are the neighbour at the drawn index |
| HillClimbing.NeighborsCounted | src/hill-climbing/main.cpp:56-61 | the counts of the generated neighbours are the neighbour counts of the ordering |
| HillClimbing.GetBestNeighbor | src/hill-climbing/main.cpp:56-62 | the result is the first neighbour with the fewest filled bins |
| HillClimbing.RandomClimbMoves | src/hill-climbing/main.cpp:69-72 | a draw whose neighbour has no more bins is taken, and the climb goes on from it |
| HillClimbing.RandomClimbStops | src/hill-climbing/main.cpp:73-75 | a draw whose neighbour has more bins ends the climb where it is |
| HillClimbing.RandomClimbNeverWorse | src/hill-climbing/main.cpp:65-79 | the random climb never ends with more bins than it started with |
| HillClimbing.RandomClimbPermutes | src/hill-climbing/main.cpp:65-79 | the random climb only reorders the bags |
| HillClimbing.GenerateRandomHillclimbingSolution | src/hill-climbing/main.cpp:65-79 | the loop ends on the climb's ordering; when it stops before the draws run out, the next draw's neighbour has more bins |
| HillClimbing.RandomHillclimbingResult | src/hill-climbing/main.cpp:65-79 | the random climb returns a reordering of the instance with no more bins than the listed order |
| HillClimbing.BestNeighborDecidesOptimum | src/hill-climbing/main.cpp:84-91 | the best neighbour is no better exactly when no neighbour is better (a local optimum) |
| HillClimbing.GenerateDeterministicHillclimbingSolution | src/hill-climbing/main.cpp:81-95 | terminates; returns a reordering of the instance, with no more bins than the listed order, at which no neighbour has fewer bins |
| TabuSearch.InTabuIsMembership | src/tabu-search/main.cpp:33-47 | among orderings of one length, matching a tabu entry weight by weight is being one of the entries |
| TabuSearch.IsTabu | src/tabu-search/main.cpp:31-50 | the nested loops decide whether some tabu entry matches the neighbour on the entry's length |
| TabuSearch.RemoveTabu | src/tabu-search/main.cpp:28-52 | the erase/remove_if pass keeps exactly the neighbours matching no tabu entry, in their original order |
| TabuSearch.NonTabuMoves | src/tabu-search/main.cpp:28-52 | flags exactly the neighbour positions that match no tabu entry |
| TabuSearch.FirstMinAmongIsUnique | src/tabu-search/main.cpp:65-70 | at most one position is the first allowed one with the fewest bins |
| TabuSearch.FilteredFirstMin | src/tabu-search/main.cpp:65-70 | max_element over the filtered list picks the first allowed position of the whole list with the fewest bins |
| TabuSearch.FirstMinAllowed | src/tabu-search/main.cpp:65-70 | -1 exactly when no position is allowed, otherwise the first allowed position with the fewest bins among the allowed ones |
| TabuSearch.BestMove | src/tabu-search/main.cpp:26-70 | -1 exactly when every neighbour is tabu, otherwise the position of the first non-tabu neighbour with the fewest bins |
| TabuSearch.FilterChoosesBestMove | src/tabu-search/main.cpp:28-70 | over the neighbours left by the tabu filter, nothing is left exactly when every neighbour is tabu, and the first fewest-bins one left is the best move |
| TabuSearch.BestMoveIsTheChoice | src/tabu-search/main.cpp:54-70 | the search's choice is BestMove: -1 when all neighbours are tabu, the first best non-tabu neighbour otherwise |
| TabuSearch.NonTabuNeighbors | src/tabu-search/main.cpp:26-52 | the kept neighbours are fresh solutions, each the neighbour at its recorded position; none is kept exactly when all are tabu, and the first fewest-bins one kept is the best move |
| TabuSearch.SelectNeighbor | src/tabu-search/main.cpp:26-70 | there is no choice exactly when every neighbour is tabu; otherwise the choice is the first non-tabu neighbour with the fewest bins |
| TabuSearch.LastMinIndex | src/tabu-search/main.cpp:72-74 | a running best replaced on ties ends at the last position of the least count |
| TabuSearch.BestVisitedStep | src/tabu-search/main.cpp:72-74 | a new ordering replaces the best when it has no more bins |
| TabuSearch.BestVisitedIsMinimal | src/tabu-search/main.cpp:19-74 | the best is a visited ordering with no more bins than any visited ordering, the starting one included |
| TabuSearch.SearchHistoryStart | src/tabu-search/main.cpp:19-23 | the starting ordering is the whole history and the whole tabu list |
| TabuSearch.TabuEntriesArePermutations | src/tabu-search/main.cpp:76-82 | every tabu entry is a reordering of the bags |
| TabuSearch.SearchHistorySelect | src/tabu-search/main.cpp:76-82 | pushing a non-tabu reordering, and evicting the oldest entry when a finite list overflows, keeps the tabu list equal to the most recent orderings |
| TabuSearch.NoveltyAfterSelect | src/tabu-search/main.cpp:65-82 | every visited ordering was outside the tabu list of its time |
| TabuSearch.BestMovePicksNonTabu | src/tabu-search/main.cpp:28-70 | the search's rule picks only neighbour positions whose neighbour matches no tabu entry |
| TabuSearch.IterateKeepsReachable | src/tabu-search/main.cpp:54-82 | an iteration with a rule that picks only non-tabu neighbours keeps the search's invariants and grows the history by at most one ordering |
| TabuSearch.RunKeepsReachable | src/tabu-search/main.cpp:25-83 | every run of iterations keeps the search's invariants and only extends the history |
| TabuSearch.FirstBacktrackStaysPut | src/tabu-search/main.cpp:59-62 | with backtracking, a move followed by an iteration where every neighbour is tabu leaves the search at the ordering it moved to, with the stack as before the move |
| TabuSearch.StuckSearchReturns | src/tabu-search/main.cpp:54-57 | without backtracking, a search whose neighbours are all tabu returns where it is |
| TabuSearch.BacktrackTo | src/tabu-search/main.cpp:59-60 | the current solution becomes the top of the stack, which is popped |
| TabuSearch.MoveToNeighbor | src/tabu-search/main.cpp:72-82 | the current solution becomes the new one, the best is the best of the history grown by it, it is pushed on the tabu list (evicting the oldest entry when a finite list overflows) and on the stack |
| TabuSearch.SearchIteration | src/tabu-search/main.cpp:26-82 | the loop body returns exactly when the search's iteration returns; otherwise the new variables hold the state the iteration continues in, which keeps the search's invariants, and the best is the best of its history |
| TabuSearch.TraceIsRun | src/tabu-search/main.cpp:25-83 | a sequence of states each continuing from the one before, ended by the iteration count or by a return, is the run of that many iterations |
| TabuSearch.SearchIsRun | src/tabu-search/main.cpp:18-86 | the history and final tabu list the search returns are those of the run of iteration_count iterations from the bags as given |
| TabuSearch.GenerateTabuSearchSolution | src/tabu-search/main.cpp:18-86 | the states the loop goes through form a run of the search from the bags as given: each is the previous one's iteration, that is, a move to the first non-tabu neighbour with the fewest bins, or, when every neighbour is tabu, a backtrack to the top of the stack; the loop ends after the iteration count or at the early return (no neighbour left, and backtracking off or the stack empty); the history keeps the search's invariants (reorderings, each new against its tabu list, the tabu list the most recent), grows by at most one per iteration, and the result is its best ordering |
| TabuSearch.TabuSearchResult | src/tabu-search/main.cpp:18-86 | tabu search returns a reordering of the bags with no more bins than the bags as given |
| WeightCounts.CountMapCounts | src/genetic-algorithm/main.cpp:152-166 | the map holds exactly the list's weights, each with its number of bags |
| WeightCounts.CountMapHolds | src/genetic-algorithm/main.cpp:152-166 | each weight of the list has an entry equal to its number of bags |
| WeightCounts.CountMapDeterminesBags | src/genetic-algorithm/main.cpp:152-166 | two bag lists have the same count map if and only if they hold the same bags |
| WeightCounts.CountMapStep | src/genetic-algorithm/main.cpp:155-163 | proof step: counting one more bag increments its weight's entry or starts it at one |
| WeightCounts.GenerateBagCountPerWeightMap | src/genetic-algorithm/main.cpp:152-166 | the loop builds the count map of the bags |
| WeightCounts.InsertAt | src/genetic-algorithm/main.cpp:191-195 | an insertion adds exactly the one bag, wherever it goes |
| WeightCounts.OfferKeepsTally | src/genetic-algorithm/main.cpp:170-196 | a taken bag joins the child's bags and its count follows; a refused bag changes nothing |
| WeightCounts.OfferStaysWithin | src/genetic-algorithm/main.cpp:179-183 | a bag is taken exactly when the child holds fewer of its weight than the instance, so the child never exceeds the instance |
| WeightCounts.InsertAvailableBagToVec | src/genetic-algorithm/main.cpp:170-196 | the guarded insertion: refused when the child is full for that weight, else counted and inserted before the index (at the end for -1 or an index past the end) |
| WeightCounts.IndexOfWeight | src/genetic-algorithm/main.cpp:198-206 | -1 exactly when no bag has the weight, otherwise the first position holding it |
| WeightCounts.FindBagIndexByWeight | src/genetic-algorithm/main.cpp:198-206 | the linear search returns the first position with the weight, or -1 |
| WeightCounts.CountMapIsPositive | src/genetic-algorithm/main.cpp:152-166 | a count map of a bag list holds no zero counts, and an empty child fits it |
| WeightCounts.TopUp | src/genetic-algorithm/main.cpp:244-252 | the inner while loop ends with exactly the instance's number of bags of the weight, and no other weight changes |
| WeightCounts.CompleteLeastFirst | src/genetic-algorithm/main.cpp:243-263 | completing over a set of weights tops up the least weight first |
| WeightCounts.CompleteFillsKeys | src/genetic-algorithm/main.cpp:242-264 | completion tops up every listed weight to its instance count and leaves the other weights alone |
| WeightCounts.CompletionGivesInstance | src/genetic-algorithm/main.cpp:242-264 | a child within the instance, completed over every weight, holds exactly the instance's bags |
| Crossovers.OfferFirstNext | src/genetic-algorithm/main.cpp:281-289 | proof step: offering the next bag of a list extends the offers by one |
| Crossovers.OfferFirstPrefix | src/genetic-algorithm/main.cpp:318-337 | only the bags actually offered affect the child |
| Crossovers.OfferFirstConcat | src/genetic-algorithm/main.cpp:318-337 | offering a list and then part of another is offering that part of their concatenation |
| Crossovers.OfferFirstKeeps | src/genetic-algorithm/main.cpp:170-196 | offering bags of the instance keeps the child tallied and within the instance |
| Crossovers.BagStripe | src/genetic-algorithm/main.cpp:281-289 | the bag stripe offers one bag per position |
| Crossovers.BagStripeWithin | src/genetic-algorithm/main.cpp:281-289 | bag striping offers only bags both parents hold |
| Crossovers.OfferBagRound | src/genetic-algorithm/main.cpp:282-288 | round i gives child A its own parent's bag at odd i and the other parent's at even i |
| Crossovers.StripedBagsChild | src/genetic-algorithm/main.cpp:275-297 | a bag-striping child is a reordering of the instance |
| Crossovers.IsStripedBagsChild | src/genetic-algorithm/main.cpp:275-297 | proof step: offering the stripe and completing following its own parent gives the bag-striping child |
| Crossovers.FlattenHoldsBins | src/Solution.cpp:56-74 | every bin holds only bags of the ordering it was cut from |
| Crossovers.BinOfferWithin | src/genetic-algorithm/main.cpp:314-340 | one bin-striping round offers only bags of the striped bins |
| Crossovers.BinStripeWithin | src/genetic-algorithm/main.cpp:314-340 | bin striping offers only bags of the parents' bins |
| Crossovers.OfferBinRound | src/genetic-algorithm/main.cpp:314-340 | round i offers child A the primary bin at odd i and the secondary bin at even i, child B the other way round |
| Crossovers.BinStripeNext | src/genetic-algorithm/main.cpp:314-340 | proof step: round i appends the primary bin and then the secondary bin the child receives |
| Crossovers.BinBagsCounted | src/genetic-algorithm/main.cpp:318-337 | every bag of the bins of a reordering of the instance has a count |
| Crossovers.BinsWithinInstance | src/genetic-algorithm/main.cpp:305-306 | the bins of a reordering of the instance hold only bags of the instance |
| Crossovers.StripedBinsChild | src/genetic-algorithm/main.cpp:299-348 | a bin-striping child is a reordering of the instance |
| Crossovers.IsStripedBinsChild | src/genetic-algorithm/main.cpp:299-348 | proof step: offering the bin stripe and completing following its own parent gives the bin-striping child |
| Crossovers.Crossover.constructor | src/genetic-algorithm/main.cpp:217-224 | the crossover copies both parents' bags and starts with two empty children and empty counts |
| Crossovers.Crossover.InsertToChildBagsA | src/genetic-algorithm/main.cpp:226-232 | child A receives the guarded insertion; child B and the parents are unchanged |
| Crossovers.Crossover.InsertToChildBagsB | src/genetic-algorithm/main.cpp:234-240 | child B receives the guarded insertion; child A and the parents are unchanged |
| Crossovers.Crossover.InsertAllToChildBagsA | src/genetic-algorithm/main.cpp:318-320 | every bag of a bin is offered to child A at the end, in order |
| Crossovers.Crossover.InsertAllToChildBagsB | src/genetic-algorithm/main.cpp:322-324 | every bag of a bin is offered to child B at the end, in order |
| Crossovers.Crossover.TopUpChildA | src/genetic-algorithm/main.cpp:244-252 | child A's inner loop tops the weight up at the first position parent A holds it |
| Crossovers.Crossover.TopUpChildB | src/genetic-algorithm/main.cpp:254-262 | child B's inner loop tops the weight up at the first position parent B holds it |
| Crossovers.Crossover.TopUpLeast | src/genetic-algorithm/main.cpp:243-263 | one pass of the weight loop handles the least remaining weight for both children |
| Crossovers.Crossover.CompleteChildBagsBasedOnParents | src/genetic-algorithm/main.cpp:242-264 | both children are completed over the weights in ascending order, following their own parent, and become reorderings of the instance |
| Crossovers.Crossover.ComposeChildA | src/genetic-algorithm/main.cpp:266-268 | a fresh solution with child A's bags and the bin weight limit |
| Crossovers.Crossover.ComposeChildB | src/genetic-algorithm/main.cpp:270-272 | a fresh solution with child B's bags and the bin weight limit |
| Crossovers.Crossover.StripeBagRound | src/genetic-algorithm/main.cpp:282-288 | after round i each child has been offered the bag stripe up to position i |
| Crossovers.Crossover.StripeBags | src/genetic-algorithm/main.cpp:281-289 | after the loop each child has been offered its whole bag stripe |
| Crossovers.Crossover.StripeBinRound | src/genetic-algorithm/main.cpp:315-339 | after round i each child has been offered its bin stripe up to bin i |
| Crossovers.Crossover.StripeBins | src/genetic-algorithm/main.cpp:314-340 | after the loop each child has been offered its whole bin stripe |
| Crossovers.Crossover.CompleteAndCompose | src/genetic-algorithm/main.cpp:291-296 | completes both children and returns them as fresh solutions |
| Crossovers.CrossParentsIntoStripedBagsChildren | src/genetic-algorithm/main.cpp:275-297 | the two children are the bag-striping children of (A, B) and (B, A), each a reordering of the instance |
| Crossovers.PrimaryAndSecondaryBins | src/genetic-algorithm/main.cpp:305-312 | the primary bins are parent A's when A has strictly more bins, else parent B's; the secondary bins are the other parent's |
| Crossovers.StripedBinsCounted | src/genetic-algorithm/main.cpp:314-340 | every bag of the primary and secondary bins has a count |
| Crossovers.StripeParentBins | src/genetic-algorithm/main.cpp:303-340 | a fresh crossover whose children have been offered their whole bin stripes |
| Crossovers.CrossParentsIntoStripedBinsChildren | src/genetic-algorithm/main.cpp:299-348 | the two children are the bin-striping children, each a reordering of the instance |
| Genetic.Engine.Next | src/genetic-algorithm/main.cpp:47-48 | each draw returns the next raw value of the stream and advances the cursor by one |
| Genetic.Engine.Uniform | src/genetic-algorithm/main.cpp:76-80 | uniform_int_distribution{lo, hi}: one draw, mapped into [lo, hi] |
| Genetic.ShufflePick | src/genetic-algorithm/main.cpp:54 | std::shuffle exchanges position i with a position in [i, n - 1] |
| Genetic.FisherYatesPermutes | src/genetic-algorithm/main.cpp:54 | a shuffle only reorders the elements |
| Genetic.ShuffleStep | src/genetic-algorithm/main.cpp:54 | one shuffle step uses one draw and advances the shuffle by one position |
| Genetic.Shuffle | src/genetic-algorithm/main.cpp:54 | the shuffle loop gives the Fisher-Yates shuffle of the engine's next draws, one draw per element |
| Genetic.GenerateRandomSolution | src/genetic-algorithm/main.cpp:52-56 | a fresh solution whose bags are a shuffle, and so a reordering, of the bags |
| Genetic.ShufflesAt | src/genetic-algorithm/main.cpp:58-66 | the k-th solution of a population is the shuffle that starts k whole shuffles later |
| Genetic.ShufflesArePermutations | src/genetic-algorithm/main.cpp:58-66 | every solution of a generated population is a reordering of the bags |
| Genetic.GeneratePopulation | src/genetic-algorithm/main.cpp:58-66 | population_size shuffles in a row (none for a size of zero or less) |
| Genetic.StoredFitness | src/genetic-algorithm/main.cpp:69-73 | the fitness stored in the vector of int is 1 for a count of zero and 0 for any positive count |
| Genetic.StoredFitnessOfSolutionIsZero | src/genetic-algorithm/main.cpp:69-73 | every ordering fills at least one bin, so every stored fitness is 0 |
| Genetic.DrawnIndex | src/genetic-algorithm/main.cpp:76-80 | a drawn index is a valid population index |
| Genetic.StoredFitnesses | src/genetic-algorithm/main.cpp:69-73 | the fitness loop stores 0 for every solution |
| Genetic.Tournament | src/genetic-algorithm/main.cpp:79-85 | a tournament uses two draws and, since all stored fitnesses tie, keeps the first solution drawn |
| Genetic.SelectParents | src/genetic-algorithm/main.cpp:68-89 | parent i is the solution at the first index drawn by tournament i; 2n draws in all |
| Genetic.Crossed | src/genetic-algorithm/main.cpp:398-401 | both crossover callbacks turn two reorderings of the instance into two reorderings of the instance |
| Genetic.CrossParents | src/genetic-algorithm/main.cpp:398-401 | the selected crossover callback returns its two children |
| Genetic.OffspringPlanShape | src/genetic-algorithm/main.cpp:94-113 | after looking at i parents there are i children, one fewer while an odd parent awaits its partner, and child k comes from Mate(n, k) |
| Genetic.OffspringPlanComplete | src/genetic-algorithm/main.cpp:91-116 | n >= 2 parents give exactly n children, child k from Mate(n, k) |
| Genetic.RealizedCrossesWithin | src/genetic-algorithm/main.cpp:398-401 | both crossovers keep the children within the reorderings of the instance |
| Genetic.ChildrenAt | src/genetic-algorithm/main.cpp:94-113 | the children of a plan are its matings' children, position by position |
| Genetic.OffspringChildren | src/genetic-algorithm/main.cpp:91-116 | child k is the second child of parents k and k - 1 for odd k, the first child of parents k + 1 and k for even k, and for an even last k the first child of parents k and k - 1 |
| Genetic.ChildrenArePermutations | src/genetic-algorithm/main.cpp:91-116 | crossing reorderings of the instance gives reorderings of the instance |
| Genetic.OffspringPairExtends | src/genetic-algorithm/main.cpp:95-104 | at an odd position both children are appended |
| Genetic.OffspringLastExtends | src/genetic-algorithm/main.cpp:106-112 | at an even last position only the first child is appended |
| Genetic.OffspringSkipExtends | src/genetic-algorithm/main.cpp:94-113 | proof step: an even position with a successor appends nothing |
| Genetic.OffspringRound | src/genetic-algorithm/main.cpp:95-112 | one iteration appends the children that parent i's position calls for |
| Genetic.GenerateOffspring | src/genetic-algorithm/main.cpp:91-116 | one child per parent, as the offspring plan pairs them, each a reordering of the instance |
| Genetic.SwapRandomAdjacentBags | src/genetic-algorithm/main.cpp:350-352 | the mutation is the neighbour at the index drawn from Solution.h's engine |
| Genetic.FlattenSwapKeepsBags | src/genetic-algorithm/main.cpp:354-366 | exchanging two bins keeps the bags they hold |
| Genetic.FlattenConcat | src/genetic-algorithm/main.cpp:358-363 | laying bins end to end distributes over concatenation |
| Genetic.FisherYatesKeepsBags | src/genetic-algorithm/main.cpp:354-366 | shuffling the bins keeps the bags they hold |
| Genetic.Concatenate | src/genetic-algorithm/main.cpp:358-363 | the nested loop lays the bins end to end |
| Genetic.ShuffleBins | src/genetic-algorithm/main.cpp:354-366 | the result is the bins shuffled and laid end to end, a reordering of the bags, with one draw per bin |
| Genetic.Mutate | src/genetic-algorithm/main.cpp:403-406 | the selected mutation callback returns a reordering of the bags and advances each engine by its draws |
| Genetic.MutationKeepsBags | src/genetic-algorithm/main.cpp:403-406 | both mutations only reorder the bags |
| Genetic.MutatingOfKeepsBags | src/genetic-algorithm/main.cpp:403-406 | the mutation callback as a value only reorders the bags |
| Genetic.MutationsStep | src/genetic-algorithm/main.cpp:134-136 | proof step: mutating a list is mutating its first ordering and then the rest from the engines' new positions, and the engines end where that second part leaves them |
| Genetic.MutationsArePermutations | src/genetic-algorithm/main.cpp:134-136 | mutating reorderings of the instance gives reorderings of the instance |
| Genetic.MutateAll | src/genetic-algorithm/main.cpp:133-136 | the loop mutates every child in order, each from where the engines stand after the previous ones |
| Genetic.MostFrequentCountBounds | src/genetic-algorithm/main.cpp:376-396 | no bin count occurs more often than the most frequent one |
| Genetic.MostFrequentCountAttained | src/genetic-algorithm/main.cpp:376-396 | the most frequent bin count occurs in the population |
| Genetic.UndifferentiatedMeansSharedCount | src/genetic-algorithm/main.cpp:376-396 | a population is undifferentiated exactly when some bin count is shared by at least 70 percent of it, rounded down |
| Genetic.UniformPopulationIsUndifferentiated | src/genetic-algorithm/main.cpp:376-396 | a non-empty population with one bin count for all is undifferentiated |
| Genetic.DistinctPopulationIsDifferentiated | src/genetic-algorithm/main.cpp:376-396 | three or more solutions with pairwise different bin counts are never undifferentiated |
| Genetic.SingleSolutionIsUndifferentiated | src/genetic-algorithm/main.cpp:379 | for one solution the threshold is 0 and the population is undifferentiated |
| Genetic.ThresholdReached | src/genetic-algorithm/main.cpp:390-392 | a count that reaches the threshold during the scan makes the population undifferentiated |
| Genetic.NoThresholdReached | src/genetic-algorithm/main.cpp:395 | a complete scan with every count below the threshold means a differentiated population |
| Genetic.CountFitness | src/genetic-algorithm/main.cpp:384-388 | one more solution increments its fitness's count or starts it at one |
| Genetic.CountSolution | src/genetic-algorithm/main.cpp:381-393 | counting solution i keeps the count map of the scanned prefix, and reports reaching the threshold only for an undifferentiated population |
| Genetic.EndOnUndifferentiatedPopulation | src/genetic-algorithm/main.cpp:376-396 | returns true exactly when some bin count is shared by at least the threshold's number of solutions |
| Genetic.EndingConditionHolds | src/genetic-algorithm/main.cpp:408-411 | the selected ending callback decides as its definition says |
| Genetic.SingleSolutionEnds | src/genetic-algorithm/main.cpp:376-396 | a population of one always ends the run under the undifferentiated condition |
| Genetic.GenerationCountEnds | src/genetic-algorithm/main.cpp:370-372 | the generation limit ends the run exactly when ten generations have been made |
| Genetic.SelectedArePermutations | src/genetic-algorithm/main.cpp:68-89 | the selected parents of reorderings of the instance are reorderings of the instance |
| Genetic.ParentsAreSelected | src/genetic-algorithm/main.cpp:68-89 | the parents select_parents returns carry the selected orderings |
| Genetic.OffspringArePermutations | src/genetic-algorithm/main.cpp:130-131 | the offspring of a population of reorderings are reorderings of the instance |
| Genetic.NextGenerationArePermutations | src/genetic-algorithm/main.cpp:129-139 | a new generation is as large as the last and made of reorderings of the instance |
| Genetic.NextGenerationIs | src/genetic-algorithm/main.cpp:130-138 | proof step: selection, crossing and mutation in turn make the next generation, and the engines end at the positions NextCursors names |
| Genetic.Breed | src/genetic-algorithm/main.cpp:130-131 | the offspring of the tournament winners, after 2n draws of the factory's engine |
| Genetic.Generation | src/genetic-algorithm/main.cpp:130-138 | the loop body replaces the population by the next generation of its orderings from the engines' positions, of the same size and made of reorderings of the instance, and the engines end at NextCursors |
| Genetic.InitialPopulation | src/genetic-algorithm/main.cpp:126 | the initial population has the asked-for size and carries the population_size shuffles drawn in a row, reorderings of the bags; the engine advances by one draw per bag per solution |
| Genetic.OngoingAppend | src/genetic-algorithm/main.cpp:129 | a population that does not meet the ending condition extends the record of the run |
| Genetic.NextPopulation | src/genetic-algorithm/main.cpp:130-138 | one generation with the selected callbacks: the new orderings are NextGeneration of the old ones under the selected crossover and mutation, from the engines' positions, and the engines end at NextCursors; size and reorderings are kept |
| Genetic.EvolutionAdvances | src/genetic-algorithm/main.cpp:129-139 | in a run from a population of two or more, every population keeps the size and each one after the first is the next generation of the one before, at the engine positions reached |
| Genetic.GenerationIsStep | src/genetic-algorithm/main.cpp:130-138 | a generation made from a population of two or more is the step the run takes from it |
| Genetic.RecordGeneration | src/genetic-algorithm/main.cpp:129-138 | a generation bred from the last population of a run, recorded with that population's counts, extends the run by one step and the record by one entry |
| Genetic.EvolveStep | src/genetic-algorithm/main.cpp:130-138 | one pass of the loop body, with its record: the size is kept and the recorded run grows by the generation taken and the counts of the population replaced |
| Genetic.Evolve | src/genetic-algorithm/main.cpp:127-139 | the loop stops at the first population meeting the ending condition at its generation count, and no earlier population met it; the populations it went through, with the engine positions at each, are the run of the generation step from the population it is given; the record holds the bin counts of every population but the last |
| Genetic.GenerateGeneticSolution | src/genetic-algorithm/main.cpp:119-147 | the populations the run goes through, with the engine positions at each, are the Evolution from the population_size shuffles of the bag list under the selected crossover and mutation; the last one met the ending condition and no earlier one did; the result is its first solution with the fewest bins |
| Genetic.GenerationCountRun | src/genetic-algorithm/main.cpp:368-372 | under the generation limit a run makes exactly ten generations |

## Left out

- Simulated annealing and the command-line drivers are not part of this
  model. Simulated annealing works on floating-point temperatures. The
  drivers (`main`, argument parsing in `utils`, `operator<<`) only do
  input and output.
- `load_garbage_bags` reads the bag list from a file. Hill climbing uses the
  built-in 22-bag list. Tabu search takes the bag list as a parameter. The
  genetic algorithm also takes the bag list as a parameter, and the global
  `BAG_COUNT_PER_WEIGHT_MAP` is handed to each crossover as its count map.
- The `GarbageBag` wrapper is modelled by its weight, an `int`.
- `int` overflow is not modelled. Weights, counts and indices stay far below
  any limit.
- Genetic.Engine: `std::random_device` and `std::mt19937` become a fixed
  stream `source: nat -> nat` with a cursor. `uniform_int_distribution`
  becomes `lo + raw % (hi - lo + 1)`. `std::shuffle` becomes the forward
  Fisher-Yates shuffle drawing one value per position. The exact mt19937
  values and the library's exact mapping are not modelled.
- HillClimbing.GenerateRandomHillclimbingSolution: the engine is replaced by
  the finite list of indices it draws. The source loop stops only on a worse
  neighbour; the model also stops when the list runs out.
- Genetic.GenerateGeneticSolution: the generation loop is bounded by a
  `fuel` count. When the fuel runs out first, the model says nothing about
  the ending condition. With the undifferentiated condition and a population
  that never converges, the source loops forever.
- Genetic.StoredFitness: `calculate_fitness` is modelled only as stored
  into select_parents' `std::vector<int>`. Elsewhere it is a `double`, and
  the model uses the bin count instead:
  - `end_on_undifferentiated_population` keys its map by fitness, and
    distinct counts give distinct values of `1.0 / (1 + count)`;
  - the final `max_element` takes the highest fitness, which is the fewest
    bins.
- Genetic.GenerateOffspring: a single parent is excluded. The source would
  read `parents[i - 1]` at `i == 0`. So the driver requires a population of
  at least two, or of one with the undifferentiated condition, which ends
  that run at once.
- Genetic.GenerateGeneticSolution: requires a population size of at least
  one. For an empty population the source's final `max_element` returns the
  end iterator, which it dereferences.
- The callback maps become the enumerations `CrossoverMethod`,
  `MutationMethod` and `EndingCondition`, with one value per key 1 and 2.
  `main` looks the callbacks up with `operator[]`. `collect_args` replaces
  any value outside a key set by the argument's default (1), so only the
  keys 1 and 2 reach the lookup.
- WeightCounts.InsertAvailableBagToVec reads the instance count without
  inserting. The source's `BAG_COUNT_PER_WEIGHT_MAP[weight]` would insert a
  zero entry for a weight foreign to the instance. Crossovers only offer
  bags of reorderings of the instance, so no such weight occurs.
- Copies and moves: the source passes `Solution` by value and copies it into
  vectors. The model shares references to solutions that are no longer
  modified, and creates fresh objects where the source builds new
  solutions. Aliasing between population members is not modelled.
- TabuSearch.GenerateTabuSearchSolution returns, as ghost results, the
  states the search went through, the history of visited orderings and the
  final tabu list. A backtrack appears among the states, but not in the
  history: only a move visits a new ordering.
