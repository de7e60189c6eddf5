/**
 * The genetic-algorithm SolutionFactory of src/genetic-algorithm/main.cpp:
 * random initial population, tournament selection, pairwise crossover,
 * mutation of every child and the two ending conditions, with the callback
 * maps replaced by enumerations.
 *
 * Both global engines (the factory's `_ga_rgen` and Solution.h's
 * `_solution_rgen`) are modelled by Engine: a fixed stream of raw values and
 * the number drawn so far.
 */
module Genetic {
  import opened Packing
  import opened Instance
  import opened Solutions
  import opened WeightCounts
  import opened Crossovers

  /** A random engine: the raw values it produces, in order, and how many have been used. */
  class Engine {
    const source: nat -> nat
    var drawn: nat

    constructor (source: nat -> nat)
      ensures this.source == source && drawn == 0
    {
      this.source := source;
      drawn := 0;
    }

    /** The next raw value of the engine. */
    method Next() returns (x: nat)
      modifies this
      ensures x == source(old(drawn))
      ensures drawn == old(drawn) + 1
    {
      x := source(drawn);
      drawn := drawn + 1;
    }

    /** uniform_int_distribution{lo, hi} applied to the engine: one draw mapped into [lo, hi]. */
    method Uniform(lo: int, hi: int) returns (x: int)
      requires lo <= hi
      modifies this
      ensures lo <= x <= hi
      ensures x == lo + source(old(drawn)) % (hi - lo + 1)
      ensures drawn == old(drawn) + 1
    {
      var raw := Next();
      x := lo + raw % (hi - lo + 1);
    }
  }

  // ---------------------------------------------------------------------
  // std::shuffle
  // ---------------------------------------------------------------------

  /** The position std::shuffle exchanges position i with, when the engine's next raw value is source(cursor). */
  function ShufflePick(source: nat -> nat, cursor: nat, i: nat, n: nat): (j: nat)
    requires i < n
    ensures i <= j < n
  {
    i + source(cursor) % (n - i)
  }

  /**
   * The result of the forward Fisher-Yates shuffle from position i on, when
   * the engine's next raw value is source(cursor): position i is exchanged
   * with a drawn position in [i, |s| - 1], then the shuffle goes on from i + 1.
   */
  function FisherYates<T>(s: seq<T>, source: nat -> nat, cursor: nat, i: nat): (r: seq<T>)
    requires i <= |s|
    ensures |r| == |s|
    decreases |s| - i
  {
    if i == |s| then s
    else FisherYates(SwapAt(s, i, ShufflePick(source, cursor, i, |s|)), source, cursor + 1, i + 1)
  }

  /** A shuffle only reorders: same length, same elements with the same multiplicities. */
  lemma {:induction false} FisherYatesPermutes<T>(s: seq<T>, source: nat -> nat, cursor: nat, i: nat)
    requires i <= |s|
    ensures multiset(FisherYates(s, source, cursor, i)) == multiset(s)
    decreases |s| - i
  {
    if i < |s| {
      var t := SwapAt(s, i, ShufflePick(source, cursor, i, |s|));
      FisherYatesPermutes(t, source, cursor + 1, i + 1);
      SwapAtPermutes(s, i, ShufflePick(source, cursor, i, |s|));
    }
  }

  /** One iteration of std::shuffle: position i is exchanged with a drawn position in [i, |s| - 1]. */
  method ShuffleStep<T>(s: seq<T>, i: nat, engine: Engine) returns (r: seq<T>)
    requires i < |s|
    modifies engine
    ensures |r| == |s|
    ensures FisherYates(r, engine.source, engine.drawn, i + 1) == FisherYates(s, engine.source, old(engine.drawn), i)
    ensures engine.drawn == old(engine.drawn) + 1
  {
    ghost var cursor := engine.drawn;
    var j := engine.Uniform(i, |s| - 1);
    assert j == ShufflePick(engine.source, cursor, i, |s|) by {
      assert |s| - 1 - i + 1 == |s| - i;
    }
    r := SwapAt(s, i, j);
  }

  /** std::shuffle over the whole sequence, one engine draw per position. */
  method Shuffle<T>(s: seq<T>, engine: Engine) returns (r: seq<T>)
    modifies engine
    ensures r == FisherYates(s, engine.source, old(engine.drawn), 0)
    ensures engine.drawn == old(engine.drawn) + |s|
  {
    r := s;
    var i := 0;
    while i < |r|
      invariant 0 <= i <= |r| == |s|
      invariant engine.drawn == old(engine.drawn) + i
      invariant FisherYates(r, engine.source, engine.drawn, i) == FisherYates(s, engine.source, old(engine.drawn), 0)
    {
      r := ShuffleStep(r, i, engine);
      i := i + 1;
    }
  }

  // ---------------------------------------------------------------------
  // Initial population
  // ---------------------------------------------------------------------

  /** generate_random_solution: a shuffled copy of the instance. */
  method GenerateRandomSolution(garbageBags: seq<int>, engine: Engine) returns (solution: Solution)
    modifies engine
    ensures fresh(solution) && solution.limit == BinWeightLimit
    ensures solution.bags == FisherYates(garbageBags, engine.source, old(engine.drawn), 0)
    ensures multiset(solution.bags) == multiset(garbageBags)
    ensures engine.drawn == old(engine.drawn) + |garbageBags|
  {
    var bags := Shuffle(garbageBags, engine);
    FisherYatesPermutes(garbageBags, engine.source, old(engine.drawn), 0);
    solution := new Solution(BinWeightLimit, bags);
  }

  /** The engine position at which the k-th shuffle of generate_population starts. */
  function ShuffleCursor(start: nat, size: nat, k: nat): nat
  {
    start + k * size
  }

  /** The next shuffle starts one whole shuffle later. */
  lemma ShuffleCursorStep(start: nat, size: nat, k: nat)
    ensures ShuffleCursor(start, size, k + 1) == ShuffleCursor(start, size, k) + size
  {
    assert (k + 1) * size == k * size + size;
  }

  /** The orderings of n shuffles in a row, the first starting at the given engine position. */
  ghost function Shuffles(bags: seq<int>, source: nat -> nat, start: nat, n: nat): (r: seq<seq<int>>)
    ensures |r| == n
  {
    if n == 0 then []
    else Shuffles(bags, source, start, n - 1) + [FisherYates(bags, source, ShuffleCursor(start, |bags|, n - 1), 0)]
  }

  /** The k-th ordering is the shuffle that starts k whole shuffles after the first. */
  lemma {:induction false} ShufflesAt(bags: seq<int>, source: nat -> nat, start: nat, n: nat, k: nat)
    requires k < n
    ensures Shuffles(bags, source, start, n)[k] == FisherYates(bags, source, start + k * |bags|, 0)
  {
    if k < n - 1 {
      ShufflesAt(bags, source, start, n - 1, k);
    }
  }

  /** Every one of the orderings is an ordering of the shuffled bags. */
  lemma {:induction false} ShufflesArePermutations(bags: seq<int>, source: nat -> nat, start: nat, n: nat)
    ensures AllPermutations(Shuffles(bags, source, start, n), bags)
  {
    if n > 0 {
      ShufflesArePermutations(bags, source, start, n - 1);
      FisherYatesPermutes(bags, source, ShuffleCursor(start, |bags|, n - 1), 0);
    }
  }

  /** generate_population: population_size shuffles in a row; none for a size of zero or less. */
  method GeneratePopulation(garbageBags: seq<int>, populationSize: int, engine: Engine) returns (population: seq<Solution>)
    modifies engine
    ensures |population| == if populationSize > 0 then populationSize else 0
    ensures forall c :: c in population ==> c.limit == BinWeightLimit
    ensures BagsOf(population) == Shuffles(garbageBags, engine.source, old(engine.drawn), |population|)
    ensures engine.drawn == ShuffleCursor(old(engine.drawn), |garbageBags|, |population|)
  {
    population := [];
    ghost var start, size, source := engine.drawn, |garbageBags|, engine.source;
    var i := 0;
    while i < populationSize
      invariant 0 <= i <= (if populationSize > 0 then populationSize else 0)
      invariant |population| == i
      invariant engine.source == source
      invariant engine.drawn == ShuffleCursor(start, size, i)
      invariant forall c :: c in population ==> c.limit == BinWeightLimit
      invariant BagsOf(population) == Shuffles(garbageBags, source, start, i)
    {
      var solution := GenerateRandomSolution(garbageBags, engine);
      ShuffleCursorStep(start, size, i);
      BagsOfAppend(population, solution);
      population := population + [solution];
      i := i + 1;
    }
  }

  // ---------------------------------------------------------------------
  // Tournament selection
  // ---------------------------------------------------------------------

  /**
   * calculate_fitness as select_parents stores it: 1 / (1 + count) is
   * converted to int, which truncates. Only an ordering with no bin at all
   * would keep a non-zero fitness.
   */
  function StoredFitness(count: int): (f: int)
    requires count >= 0
    ensures count == 0 ==> f == 1
    ensures count >= 1 ==> f == 0
  {
    1 / (1 + count)
  }

  /** Every ordering opens at least one bin, so every stored fitness is zero. */
  lemma StoredFitnessOfSolutionIsZero(bags: seq<int>, limit: int)
    ensures Count(bags, limit) >= 1
    ensures StoredFitness(Count(bags, limit)) == 0
  {
  }

  /** The position the engine's raw value maps to under uniform_int_distribution{0, size - 1}. */
  function DrawnIndex(source: nat -> nat, cursor: nat, size: int): (k: int)
    requires size >= 1
    ensures 0 <= k < size
  {
    source(cursor) % size
  }

  /** The fitness loop of select_parents: the stored fitness of every solution, each of them zero. */
  method StoredFitnesses(population: seq<Solution>) returns (fitnesses: seq<int>)
    ensures |fitnesses| == |population|
    ensures forall k :: 0 <= k < |population| ==>
      fitnesses[k] == StoredFitness(Count(population[k].bags, population[k].limit)) == 0
  {
    fitnesses := [];
    var i := 0;
    while i < |population|
      invariant 0 <= i <= |population|
      invariant |fitnesses| == i
      invariant forall k :: 0 <= k < i ==>
        fitnesses[k] == StoredFitness(Count(population[k].bags, population[k].limit)) == 0
    {
      var count := population[i].FilledBinCount();
      StoredFitnessOfSolutionIsZero(population[i].bags, population[i].limit);
      fitnesses := fitnesses + [StoredFitness(count)];
      i := i + 1;
    }
  }

  /** One tournament of select_parents: two draws, and the first solution drawn wins a tie of stored fitnesses. */
  method Tournament(population: seq<Solution>, fitnesses: seq<int>, engine: Engine) returns (winner: Solution)
    requires |population| >= 1 && |fitnesses| == |population|
    requires forall k :: 0 <= k < |fitnesses| ==> fitnesses[k] == 0
    modifies engine
    ensures winner == population[DrawnIndex(engine.source, old(engine.drawn), |population|)]
    ensures engine.drawn == old(engine.drawn) + 2
  {
    var indexA := engine.Uniform(0, |population| - 1);
    var indexB := engine.Uniform(0, |population| - 1);
    var solutionA, solutionB := population[indexA], population[indexB];
    winner := if fitnesses[indexA] >= fitnesses[indexB] then solutionA else solutionB;
  }

  /**
   * select_parents. Each tournament draws index_a then index_b and keeps
   * index_a when its stored fitness is at least index_b's; since every
   * stored fitness is zero, every tournament keeps population[index_a].
   */
  method SelectParents(population: seq<Solution>, engine: Engine) returns (parents: seq<Solution>)
    requires |population| >= 1
    modifies engine
    ensures |parents| == |population|
    ensures forall i :: 0 <= i < |parents| ==>
      parents[i] == population[DrawnIndex(engine.source, old(engine.drawn) + 2 * i, |population|)]
    ensures engine.drawn == old(engine.drawn) + 2 * |population|
  {
    var fitnesses := StoredFitnesses(population);
    parents := [];
    ghost var start, source := engine.drawn, engine.source;
    var i := 0;
    while i < |population|
      invariant 0 <= i <= |population|
      invariant |parents| == i
      invariant engine.source == source
      invariant engine.drawn == start + 2 * i
      invariant forall k :: 0 <= k < i ==> parents[k] == population[DrawnIndex(source, start + 2 * k, |population|)]
    {
      var winner := Tournament(population, fitnesses, engine);
      parents := parents + [winner];
      i := i + 1;
    }
  }

  // ---------------------------------------------------------------------
  // Crossover and offspring
  // ---------------------------------------------------------------------

  /** The CROSSOVER_CB_MAP entries: 1 is bag striping, 2 is bin striping. */
  datatype CrossoverMethod = BagStriping | BinStriping

  /** The two children a crossover makes from two orderings of the instance. */
  ghost function Crossed(kind: CrossoverMethod, a: seq<int>, b: seq<int>, instance: seq<int>): (children: (seq<int>, seq<int>))
    requires multiset(a) == multiset(instance) && multiset(b) == multiset(instance)
    ensures multiset(children.0) == multiset(instance) && multiset(children.1) == multiset(instance)
  {
    assert |a| == |multiset(a)| == |multiset(b)| == |b|;
    match kind
    case BagStriping =>
      (StripedBagsChild(a, b, |a|, instance), StripedBagsChild(b, a, |a|, instance))
    case BinStriping =>
      (StripedBinsChild(a, b, true, instance), StripedBinsChild(a, b, false, instance))
  }

  /** The selected crossover callback applied to two parents. */
  method CrossParents(kind: CrossoverMethod, parentA: Solution, parentB: Solution, bagCountPerWeight: map<int, int>, ghost instance: seq<int>)
    returns (childA: Solution, childB: Solution)
    requires bagCountPerWeight == CountMap(instance)
    requires parentA.limit == BinWeightLimit && parentB.limit == BinWeightLimit
    requires multiset(parentA.bags) == multiset(instance) && multiset(parentB.bags) == multiset(instance)
    ensures fresh(childA) && fresh(childB)
    ensures childA.limit == BinWeightLimit && childB.limit == BinWeightLimit
    ensures (childA.bags, childB.bags) == Crossed(kind, parentA.bags, parentB.bags, instance)
  {
    match kind
    case BagStriping =>
      childA, childB := CrossParentsIntoStripedBagsChildren(parentA, parentB, bagCountPerWeight, instance);
    case BinStriping =>
      childA, childB := CrossParentsIntoStripedBinsChildren(parentA, parentB, bagCountPerWeight, instance);
  }

  /** The bag lists of a list of solutions, in list order. */
  ghost function BagsOf(solutions: seq<Solution>): (r: seq<seq<int>>)
    reads solutions
    ensures |r| == |solutions|
    ensures forall k :: 0 <= k < |solutions| ==> r[k] == solutions[k].bags
  {
    if solutions == [] then []
    else BagsOf(solutions[..|solutions| - 1]) + [solutions[|solutions| - 1].bags]
  }

  /** Bag lists given solution by solution are the bag lists of the list. */
  lemma BagsAre(solutions: seq<Solution>, bss: seq<seq<int>>)
    requires |bss| == |solutions|
    requires forall k :: 0 <= k < |solutions| ==> solutions[k].bags == bss[k]
    ensures BagsOf(solutions) == bss
  {
  }

  /** Solution k holds the bag list bss[k] under the bin weight limit, for every k. */
  ghost predicate Carries(solutions: seq<Solution>, bss: seq<seq<int>>)
    reads solutions
  {
    |bss| == |solutions| &&
    forall k :: 0 <= k < |solutions| ==> solutions[k].limit == BinWeightLimit && solutions[k].bags == bss[k]
  }

  /** Every list in ps is an ordering of the instance. */
  predicate AllPermutations(ps: seq<seq<int>>, instance: seq<int>)
  {
    forall k :: 0 <= k < |ps| ==> multiset(ps[k]) == multiset(instance)
  }

  /** An odd position has a predecessor. */
  lemma OddIsPositive(k: int)
    requires k >= 0 && k % 2 == 1
    ensures k >= 1
  {
  }

  /** Consecutive positions have opposite parities. */
  lemma ParityStep(i: int)
    ensures i % 2 == 0 || i % 2 == 1
    ensures (i + 1) % 2 == 1 - i % 2
  {
  }

  /** Where a child comes from: parents[parent] crossed with parents[parent - 1], keeping the first or the second child. */
  datatype Mating = Mating(parent: int, keepsFirst: bool)

  /**
   * The crossovers generate_offspring performs while it looks at parents
   * 0 to i - 1 of n: at an odd position i - 1 both children of that parent
   * and its predecessor, at an even last position only the first child.
   */
  function OffspringPlan(n: int, i: int): (plan: seq<Mating>)
    requires n != 1 && 0 <= i <= n
    ensures forall k :: 0 <= k < |plan| ==> 1 <= plan[k].parent < i
  {
    if i == 0 then []
    else
      var j := i - 1;
      OffspringPlan(n, j) +
        if j % 2 == 1 then OddIsPositive(j); [Mating(j, true), Mating(j, false)]
        else if j == n - 1 then [Mating(j, true)]
        else []
  }

  /** The crossover behind offspring position k when there are n parents. */
  function Mate(n: int, k: int): Mating
  {
    if k % 2 == 1 then Mating(k, false)
    else if k + 1 < n then Mating(k + 1, true)
    else Mating(k, true)
  }

  /**
   * After parents 0 to i - 1 the plan holds i children, one fewer while an
   * odd parent is still waiting for its partner, and the child at position
   * k comes from Mate(n, k).
   */
  lemma {:induction false} OffspringPlanShape(n: int, i: int)
    requires n >= 2 && 0 <= i <= n
    ensures |OffspringPlan(n, i)| == if i % 2 == 1 && i < n then i - 1 else i
    ensures forall k :: 0 <= k < |OffspringPlan(n, i)| ==> OffspringPlan(n, i)[k] == Mate(n, k)
  {
    if i > 0 {
      var j := i - 1;
      OffspringPlanShape(n, j);
      ParityStep(j);
      if j % 2 == 1 {
        OffspringPlanPairStep(n, j);
      } else if j == n - 1 {
        OffspringPlanLastStep(n, j);
      } else {
        OffspringPlanSkipStep(n, j);
      }
    }
  }

  /** An odd parent adds both children of itself and its predecessor. */
  lemma OffspringPlanPairStep(n: int, j: int)
    requires n >= 2 && 1 <= j < n && j % 2 == 1
    requires |OffspringPlan(n, j)| == j - 1
    requires forall k :: 0 <= k < j - 1 ==> OffspringPlan(n, j)[k] == Mate(n, k)
    ensures |OffspringPlan(n, j + 1)| == j + 1
    ensures forall k :: 0 <= k < j + 1 ==> OffspringPlan(n, j + 1)[k] == Mate(n, k)
  {
    ParityStep(j - 1);
    var before, after := OffspringPlan(n, j), OffspringPlan(n, j + 1);
    assert after == before + [Mating(j, true), Mating(j, false)];
    forall k | 0 <= k < j + 1
      ensures after[k] == Mate(n, k)
    {
      if k < j - 1 {
        assert after[k] == before[k];
      }
    }
  }

  /** An even last parent adds the first child of itself and its predecessor. */
  lemma OffspringPlanLastStep(n: int, j: int)
    requires n >= 2 && j == n - 1 && j % 2 == 0
    requires |OffspringPlan(n, j)| == j
    requires forall k :: 0 <= k < j ==> OffspringPlan(n, j)[k] == Mate(n, k)
    ensures |OffspringPlan(n, j + 1)| == j + 1
    ensures forall k :: 0 <= k < j + 1 ==> OffspringPlan(n, j + 1)[k] == Mate(n, k)
  {
    var before, after := OffspringPlan(n, j), OffspringPlan(n, j + 1);
    assert after == before + [Mating(j, true)];
    forall k | 0 <= k < j + 1
      ensures after[k] == Mate(n, k)
    {
      if k < j {
        assert after[k] == before[k];
      }
    }
  }

  /** An even parent with a successor waits for its partner and adds nothing. */
  lemma OffspringPlanSkipStep(n: int, j: int)
    requires n >= 2 && 0 <= j < n - 1 && j % 2 == 0
    requires |OffspringPlan(n, j)| == j
    requires forall k :: 0 <= k < j ==> OffspringPlan(n, j)[k] == Mate(n, k)
    ensures |OffspringPlan(n, j + 1)| == j
    ensures forall k :: 0 <= k < j ==> OffspringPlan(n, j + 1)[k] == Mate(n, k)
  {
    assert OffspringPlan(n, j + 1) == OffspringPlan(n, j);
  }

  /** Every parent is looked at, so the plan has exactly one child per parent. */
  lemma OffspringPlanComplete(n: int)
    requires n >= 2
    ensures |OffspringPlan(n, n)| == n
    ensures forall k :: 0 <= k < n ==> OffspringPlan(n, n)[k] == Mate(n, k)
  {
    OffspringPlanShape(n, n);
    ParityStep(n);
  }

  /** A crossover as a value: a pair of parents to a pair of children. */
  type Crossing = (seq<int>, seq<int>) -> (seq<int>, seq<int>)

  /** The crossover the callback performs, for parents that are orderings of the instance. */
  ghost function CrossingOf(kind: CrossoverMethod, instance: seq<int>): Crossing
  {
    (a: seq<int>, b: seq<int>) =>
      if multiset(a) == multiset(instance) && multiset(b) == multiset(instance) then Crossed(kind, a, b, instance) else (a, b)
  }

  /** The crossing agrees with the selected crossover on every pair of orderings of the instance. */
  ghost predicate Realizes(cross: Crossing, kind: CrossoverMethod, instance: seq<int>)
  {
    forall a: seq<int>, b: seq<int> {:trigger Crossed(kind, a, b, instance)} ::
      multiset(a) == multiset(instance) && multiset(b) == multiset(instance) ==> cross(a, b) == Crossed(kind, a, b, instance)
  }

  /** CrossingOf is such a crossing. */
  lemma CrossingOfRealizes(kind: CrossoverMethod, instance: seq<int>)
    ensures Realizes(CrossingOf(kind, instance), kind, instance)
  {
  }

  /** The crossing gives orderings of the instance for every pair of orderings of the instance. */
  ghost predicate CrossesWithin(cross: Crossing, instance: seq<int>)
  {
    forall a: seq<int>, b: seq<int> ::
      multiset(a) == multiset(instance) && multiset(b) == multiset(instance) ==>
        multiset(cross(a, b).0) == multiset(instance) && multiset(cross(a, b).1) == multiset(instance)
  }

  /** Both crossovers only reorder the bags of the instance. */
  lemma RealizedCrossesWithin(cross: Crossing, kind: CrossoverMethod, instance: seq<int>)
    requires Realizes(cross, kind, instance)
    ensures CrossesWithin(cross, instance)
  {
    forall a: seq<int>, b: seq<int> | multiset(a) == multiset(instance) && multiset(b) == multiset(instance)
      ensures multiset(cross(a, b).0) == multiset(instance) && multiset(cross(a, b).1) == multiset(instance)
    {
      assert cross(a, b) == Crossed(kind, a, b, instance);
    }
  }

  /** The child a mating gives. */
  function ChildOf(cross: Crossing, ps: seq<seq<int>>, m: Mating): seq<int>
    requires 1 <= m.parent < |ps|
  {
    var children := cross(ps[m.parent], ps[m.parent - 1]);
    if m.keepsFirst then children.0 else children.1
  }

  /** Every mating of a plan admitted by the parent list. */
  predicate Admitted(plan: seq<Mating>, n: int)
  {
    forall k :: 0 <= k < |plan| ==> 1 <= plan[k].parent < n
  }

  /** The children a plan gives, in plan order. */
  function Children(cross: Crossing, ps: seq<seq<int>>, plan: seq<Mating>): (r: seq<seq<int>>)
    requires Admitted(plan, |ps|)
    ensures |r| == |plan|
  {
    if plan == [] then []
    else Children(cross, ps, plan[..|plan| - 1]) + [ChildOf(cross, ps, plan[|plan| - 1])]
  }

  /** Children position by position. */
  lemma {:induction false} ChildrenAt(cross: Crossing, ps: seq<seq<int>>, plan: seq<Mating>)
    requires Admitted(plan, |ps|)
    ensures forall k :: 0 <= k < |plan| ==> Children(cross, ps, plan)[k] == ChildOf(cross, ps, plan[k])
  {
    if plan != [] {
      var init, m := plan[..|plan| - 1], plan[|plan| - 1];
      assert Admitted(init, |ps|);
      ChildrenAt(cross, ps, init);
      var before := Children(cross, ps, init);
      var after := Children(cross, ps, plan);
      assert after == before + [ChildOf(cross, ps, m)];
      forall k | 0 <= k < |plan|
        ensures after[k] == ChildOf(cross, ps, plan[k])
      {
        if k < |init| {
          assert plan[k] == init[k] && after[k] == before[k];
        }
      }
    }
  }

  /** Extending a plan extends its children. */
  lemma ChildrenAppend(cross: Crossing, ps: seq<seq<int>>, plan: seq<Mating>, m: Mating)
    requires Admitted(plan, |ps|) && 1 <= m.parent < |ps|
    ensures Admitted(plan + [m], |ps|)
    ensures Children(cross, ps, plan + [m]) == Children(cross, ps, plan) + [ChildOf(cross, ps, m)]
  {
    assert (plan + [m])[..|plan|] == plan;
  }

  /**
   * What generate_offspring makes of n >= 2 parents: child k is the second
   * child of parents k and k - 1 for odd k, the first child of parents
   * k + 1 and k for even k, and for an even last k the first child of
   * parents k and k - 1.
   */
  lemma OffspringChildren(cross: Crossing, ps: seq<seq<int>>)
    requires |ps| >= 2
    ensures Admitted(OffspringPlan(|ps|, |ps|), |ps|)
    ensures |Children(cross, ps, OffspringPlan(|ps|, |ps|))| == |ps|
    ensures forall k :: 0 <= k < |ps| ==> Children(cross, ps, OffspringPlan(|ps|, |ps|))[k] == ChildOf(cross, ps, Mate(|ps|, k))
  {
    OffspringPlanComplete(|ps|);
    ChildrenAt(cross, ps, OffspringPlan(|ps|, |ps|));
  }

  /** Crossing orderings of the instance gives orderings of the instance. */
  lemma CrossingKeepsInstance(cross: Crossing, instance: seq<int>, ps: seq<seq<int>>, m: Mating)
    requires CrossesWithin(cross, instance)
    requires AllPermutations(ps, instance) && 1 <= m.parent < |ps|
    ensures multiset(ChildOf(cross, ps, m)) == multiset(instance)
  {
    var a, b := ps[m.parent], ps[m.parent - 1];
    assert multiset(a) == multiset(instance) && multiset(b) == multiset(instance);
  }

  /** Every child a plan gives from orderings of the instance is an ordering of the instance. */
  lemma {:induction false} ChildrenArePermutations(cross: Crossing, instance: seq<int>, ps: seq<seq<int>>, plan: seq<Mating>)
    requires CrossesWithin(cross, instance)
    requires AllPermutations(ps, instance) && Admitted(plan, |ps|)
    ensures AllPermutations(Children(cross, ps, plan), instance)
    decreases |plan|
  {
    if plan != [] {
      var init := plan[..|plan| - 1];
      ChildrenArePermutations(cross, instance, ps, init);
      CrossingKeepsInstance(cross, instance, ps, plan[|plan| - 1]);
    }
  }

  /** Appending one solution appends its bag list. */
  lemma BagsOfAppend(solutions: seq<Solution>, s: Solution)
    ensures BagsOf(solutions + [s]) == BagsOf(solutions) + [s.bags]
  {
    assert (solutions + [s])[..|solutions|] == solutions;
  }

  /** At an odd position the offspring grows by both children of the parent and its predecessor. */
  lemma OffspringPairExtends(cross: Crossing, ps: seq<seq<int>>, i: int, done: seq<seq<int>>, a: seq<int>, b: seq<int>)
    requires |ps| >= 2 && 1 <= i < |ps| && i % 2 == 1
    requires done == Children(cross, ps, OffspringPlan(|ps|, i))
    requires (a, b) == cross(ps[i], ps[i - 1])
    ensures done + [a, b] == Children(cross, ps, OffspringPlan(|ps|, i + 1))
  {
    var plan := OffspringPlan(|ps|, i);
    ChildrenAppend(cross, ps, plan, Mating(i, true));
    ChildrenAppend(cross, ps, plan + [Mating(i, true)], Mating(i, false));
    assert OffspringPlan(|ps|, i + 1) == plan + [Mating(i, true)] + [Mating(i, false)];
  }

  /** At an even last position the offspring grows by the first child of the parent and its predecessor. */
  lemma OffspringLastExtends(cross: Crossing, ps: seq<seq<int>>, i: int, done: seq<seq<int>>, a: seq<int>)
    requires |ps| >= 2 && i == |ps| - 1 && i % 2 == 0
    requires done == Children(cross, ps, OffspringPlan(|ps|, i))
    requires a == cross(ps[i], ps[i - 1]).0
    ensures done + [a] == Children(cross, ps, OffspringPlan(|ps|, i + 1))
  {
    var plan := OffspringPlan(|ps|, i);
    assert OffspringPlan(|ps|, i + 1) == plan + [Mating(i, true)];
    ChildrenAppend(cross, ps, plan, Mating(i, true));
    assert ChildOf(cross, ps, Mating(i, true)) == a;
  }

  /** An even position with a successor adds nothing. */
  lemma OffspringSkipExtends(cross: Crossing, ps: seq<seq<int>>, i: int)
    requires |ps| >= 2 && 0 <= i < |ps| - 1 && i % 2 == 0
    ensures Children(cross, ps, OffspringPlan(|ps|, i + 1)) == Children(cross, ps, OffspringPlan(|ps|, i))
  {
    assert OffspringPlan(|ps|, i + 1) == OffspringPlan(|ps|, i);
  }

  /** The selected crossover applied to parents i and i - 1, stated through a crossing that realizes it. */
  method CrossAt(parents: seq<Solution>, kind: CrossoverMethod, bagCountPerWeight: map<int, int>, ghost instance: seq<int>,
                 ghost cross: Crossing, ghost ps: seq<seq<int>>, i: int)
    returns (childA: Solution, childB: Solution)
    requires Realizes(cross, kind, instance)
    requires 1 <= i < |parents|
    requires bagCountPerWeight == CountMap(instance)
    requires forall k :: 0 <= k < |parents| ==> parents[k].limit == BinWeightLimit
    requires ps == BagsOf(parents) && AllPermutations(ps, instance)
    ensures fresh(childA) && fresh(childB)
    ensures childA.limit == BinWeightLimit && childB.limit == BinWeightLimit
    ensures (childA.bags, childB.bags) == cross(ps[i], ps[i - 1])
  {
    childA, childB := CrossParents(kind, parents[i], parents[i - 1], bagCountPerWeight, instance);
    assert cross(ps[i], ps[i - 1]) == Crossed(kind, ps[i], ps[i - 1], instance);
  }

  /** An odd position: both children of parent i and its predecessor. */
  method OffspringPair(parents: seq<Solution>, kind: CrossoverMethod, bagCountPerWeight: map<int, int>, ghost instance: seq<int>,
                       ghost cross: Crossing, ghost ps: seq<seq<int>>, i: int, ghost done: seq<seq<int>>)
    returns (added: seq<Solution>)
    requires Realizes(cross, kind, instance)
    requires 2 <= |parents| && 1 <= i < |parents| && i % 2 == 1
    requires bagCountPerWeight == CountMap(instance)
    requires forall k :: 0 <= k < |parents| ==> parents[k].limit == BinWeightLimit
    requires ps == BagsOf(parents) && AllPermutations(ps, instance)
    requires done == Children(cross, ps, OffspringPlan(|ps|, i))
    ensures done + BagsOf(added) == Children(cross, ps, OffspringPlan(|ps|, i + 1))
    ensures forall c :: c in added ==> c.limit == BinWeightLimit
  {
    var childA, childB := CrossAt(parents, kind, bagCountPerWeight, instance, cross, ps, i);
    added := [childA, childB];
    assert BagsOf(added) == [childA.bags, childB.bags];
    OffspringPairExtends(cross, ps, i, done, childA.bags, childB.bags);
  }

  /** An even last position: the first child of parent i and its predecessor. */
  method OffspringLast(parents: seq<Solution>, kind: CrossoverMethod, bagCountPerWeight: map<int, int>, ghost instance: seq<int>,
                       ghost cross: Crossing, ghost ps: seq<seq<int>>, i: int, ghost done: seq<seq<int>>)
    returns (added: seq<Solution>)
    requires Realizes(cross, kind, instance)
    requires 2 <= |parents| && i == |parents| - 1 && i % 2 == 0
    requires bagCountPerWeight == CountMap(instance)
    requires forall k :: 0 <= k < |parents| ==> parents[k].limit == BinWeightLimit
    requires ps == BagsOf(parents) && AllPermutations(ps, instance)
    requires done == Children(cross, ps, OffspringPlan(|ps|, i))
    ensures done + BagsOf(added) == Children(cross, ps, OffspringPlan(|ps|, i + 1))
    ensures forall c :: c in added ==> c.limit == BinWeightLimit
  {
    var childA, childB := CrossAt(parents, kind, bagCountPerWeight, instance, cross, ps, i);
    added := [childA];
    assert BagsOf(added) == [childA.bags];
    OffspringLastExtends(cross, ps, i, done, childA.bags);
  }

  /** One iteration of generate_offspring: parent i is looked at and the children it gives are returned. */
  method OffspringRound(parents: seq<Solution>, kind: CrossoverMethod, bagCountPerWeight: map<int, int>, ghost instance: seq<int>,
                        ghost cross: Crossing, ghost ps: seq<seq<int>>, i: int, ghost done: seq<seq<int>>)
    returns (added: seq<Solution>)
    requires Realizes(cross, kind, instance)
    requires 2 <= |parents| && 0 <= i < |parents|
    requires bagCountPerWeight == CountMap(instance)
    requires forall k :: 0 <= k < |parents| ==> parents[k].limit == BinWeightLimit
    requires ps == BagsOf(parents) && AllPermutations(ps, instance)
    requires done == Children(cross, ps, OffspringPlan(|ps|, i))
    ensures done + BagsOf(added) == Children(cross, ps, OffspringPlan(|ps|, i + 1))
    ensures forall c :: c in added ==> c.limit == BinWeightLimit
  {
    if i % 2 == 1 {
      OddIsPositive(i);
      added := OffspringPair(parents, kind, bagCountPerWeight, instance, cross, ps, i, done);
    } else if i == |parents| - 1 {
      added := OffspringLast(parents, kind, bagCountPerWeight, instance, cross, ps, i, done);
    } else {
      added := [];
      OffspringSkipExtends(cross, ps, i);
    }
  }

  /** Bag lists given solution by solution extend with the solutions appended. */
  lemma BagsExtend(solutions: seq<Solution>, bss: seq<seq<int>>, added: seq<Solution>, addedBags: seq<seq<int>>)
    requires |bss| == |solutions| && addedBags == BagsOf(added)
    requires forall k :: 0 <= k < |solutions| ==> solutions[k].bags == bss[k] && solutions[k].limit == BinWeightLimit
    requires forall c :: c in added ==> c.limit == BinWeightLimit
    ensures |bss + addedBags| == |solutions + added|
    ensures forall k :: 0 <= k < |solutions + added| ==>
      (solutions + added)[k].bags == (bss + addedBags)[k] && (solutions + added)[k].limit == BinWeightLimit
  {
    forall k | 0 <= k < |solutions + added|
      ensures (solutions + added)[k].bags == (bss + addedBags)[k] && (solutions + added)[k].limit == BinWeightLimit
    {
      if k >= |solutions| {
        assert (solutions + added)[k] == added[k - |solutions|];
      }
    }
  }

  /** The children of the whole plan: one ordering of the instance per parent. */
  lemma OffspringComplete(cross: Crossing, kind: CrossoverMethod, instance: seq<int>, ps: seq<seq<int>>, done: seq<seq<int>>)
    requires Realizes(cross, kind, instance)
    requires |ps| >= 2 && AllPermutations(ps, instance)
    requires done == Children(cross, ps, OffspringPlan(|ps|, |ps|))
    ensures |done| == |ps| && AllPermutations(done, instance)
  {
    OffspringPlanComplete(|ps|);
    RealizedCrossesWithin(cross, kind, instance);
    ChildrenArePermutations(cross, instance, ps, OffspringPlan(|ps|, |ps|));
  }

  /** Parent i's children appended to the offspring so far. */
  method OffspringStep(parents: seq<Solution>, kind: CrossoverMethod, bagCountPerWeight: map<int, int>, ghost instance: seq<int>,
                       ghost cross: Crossing, ghost ps: seq<seq<int>>, i: int, offspring: seq<Solution>, ghost done: seq<seq<int>>)
    returns (next: seq<Solution>, ghost nextDone: seq<seq<int>>)
    requires Realizes(cross, kind, instance)
    requires 2 <= |parents| && 0 <= i < |parents|
    requires bagCountPerWeight == CountMap(instance)
    requires forall k :: 0 <= k < |parents| ==> parents[k].limit == BinWeightLimit
    requires ps == BagsOf(parents) && AllPermutations(ps, instance)
    requires |done| == |offspring|
    requires forall k :: 0 <= k < |offspring| ==> offspring[k].bags == done[k] && offspring[k].limit == BinWeightLimit
    requires done == Children(cross, ps, OffspringPlan(|ps|, i))
    ensures |nextDone| == |next|
    ensures forall k :: 0 <= k < |next| ==> next[k].bags == nextDone[k] && next[k].limit == BinWeightLimit
    ensures nextDone == Children(cross, ps, OffspringPlan(|ps|, i + 1))
  {
    var added := OffspringRound(parents, kind, bagCountPerWeight, instance, cross, ps, i, done);
    BagsExtend(offspring, done, added, BagsOf(added));
    next, nextDone := offspring + added, done + BagsOf(added);
  }

  /** The loop of generate_offspring over two or more parents. */
  method OffspringLoop(parents: seq<Solution>, kind: CrossoverMethod, bagCountPerWeight: map<int, int>, ghost instance: seq<int>,
                       ghost cross: Crossing, ghost ps: seq<seq<int>>)
    returns (offspring: seq<Solution>)
    requires Realizes(cross, kind, instance)
    requires |parents| >= 2
    requires bagCountPerWeight == CountMap(instance)
    requires forall k :: 0 <= k < |parents| ==> parents[k].limit == BinWeightLimit
    requires ps == BagsOf(parents) && AllPermutations(ps, instance)
    ensures forall c :: c in offspring ==> c.limit == BinWeightLimit
    ensures BagsOf(offspring) == Children(cross, ps, OffspringPlan(|ps|, |ps|))
  {
    offspring := [];
    ghost var done: seq<seq<int>> := [];
    var i := 0;
    while i < |parents|
      invariant 0 <= i <= |parents|
      invariant |done| == |offspring|
      invariant forall k :: 0 <= k < |offspring| ==> offspring[k].bags == done[k] && offspring[k].limit == BinWeightLimit
      invariant done == Children(cross, ps, OffspringPlan(|ps|, i))
    {
      offspring, done := OffspringStep(parents, kind, bagCountPerWeight, instance, cross, ps, i, offspring, done);
      i := i + 1;
    }
    BagsAre(offspring, done);
  }

  /**
   * generate_offspring: one child per parent, as OffspringChildren
   * describes, each an ordering of the instance. A single parent is
   * excluded: the code would cross it with the element before position 0.
   */
  method GenerateOffspring(parents: seq<Solution>, kind: CrossoverMethod, bagCountPerWeight: map<int, int>, ghost instance: seq<int>,
                           ghost cross: Crossing)
    returns (offspring: seq<Solution>)
    requires Realizes(cross, kind, instance)
    requires |parents| != 1
    requires bagCountPerWeight == CountMap(instance)
    requires forall k :: 0 <= k < |parents| ==> parents[k].limit == BinWeightLimit
    requires AllPermutations(BagsOf(parents), instance)
    ensures |offspring| == |parents|
    ensures forall c :: c in offspring ==> c.limit == BinWeightLimit
    ensures BagsOf(offspring) == Children(cross, BagsOf(parents), OffspringPlan(|parents|, |parents|))
    ensures AllPermutations(BagsOf(offspring), instance)
  {
    if |parents| == 0 {
      return [];
    }
    offspring := OffspringLoop(parents, kind, bagCountPerWeight, instance, cross, BagsOf(parents));
    OffspringComplete(cross, kind, instance, BagsOf(parents), BagsOf(offspring));
  }

  // ---------------------------------------------------------------------
  // Mutations
  // ---------------------------------------------------------------------

  /** The MUTATION_CB_MAP entries: 1 swaps a random adjacent pair, 2 shuffles the bins. */
  datatype MutationMethod = SwapAdjacentBags | ShuffleBinOrder

  /** swap_random_adjacent_bags: the solution's random neighbour, drawn from Solution.h's engine. */
  method SwapRandomAdjacentBags(solution: Solution, solutionEngine: Engine) returns (r: Solution)
    requires |solution.bags| >= 1
    modifies solutionEngine
    ensures fresh(r) && r.limit == solution.limit
    ensures r.bags == Neighbor(solution.bags, DrawnIndex(solutionEngine.source, old(solutionEngine.drawn), |solution.bags|))
    ensures solutionEngine.drawn == old(solutionEngine.drawn) + 1
  {
    var draw := solutionEngine.Next();
    r := solution.GenerateRandomNeighbor(draw);
  }

  /** Exchanging i with j is exchanging j with i. */
  lemma SwapSymmetric<T>(s: seq<T>, i: int, j: int)
    requires 0 <= i < |s| && 0 <= j < |s|
    ensures SwapAt(s, i, j) == SwapAt(s, j, i)
  {
    assert forall k :: 0 <= k < |s| ==> SwapAt(s, i, j)[k] == SwapAt(s, j, i)[k];
  }

  /** A sequence and its swap, cut at the two swapped positions. */
  lemma SwapLayout<T>(s: seq<T>, i: int, j: int)
    requires 0 <= i < j < |s|
    ensures s == s[..i] + [s[i]] + s[i + 1..j] + [s[j]] + s[j + 1..]
    ensures SwapAt(s, i, j) == s[..i] + [s[j]] + s[i + 1..j] + [s[i]] + s[j + 1..]
  {
    var r := s[..i] + [s[j]] + s[i + 1..j] + [s[i]] + s[j + 1..];
    assert forall k :: 0 <= k < |s| ==> SwapAt(s, i, j)[k] == r[k];
    var t := s[..i] + [s[i]] + s[i + 1..j] + [s[j]] + s[j + 1..];
    assert forall k :: 0 <= k < |s| ==> s[k] == t[k];
  }

  /** Swapping two bins with i before j keeps the bags they hold. */
  lemma FlattenSwapOrderedKeepsBags(bins: seq<seq<int>>, i: int, j: int)
    requires 0 <= i < j < |bins|
    ensures multiset(Flatten(SwapAt(bins, i, j))) == multiset(Flatten(bins))
  {
    var a, b, c := bins[..i], bins[i + 1..j], bins[j + 1..];
    SwapLayout(bins, i, j);
    FlattenFive(a, bins[i], b, bins[j], c);
    FlattenFive(a, bins[j], b, bins[i], c);
  }

  /** Swapping two bins keeps the bags they hold. */
  lemma FlattenSwapKeepsBags(bins: seq<seq<int>>, i: int, j: int)
    requires 0 <= i < |bins| && 0 <= j < |bins|
    ensures multiset(Flatten(SwapAt(bins, i, j))) == multiset(Flatten(bins))
  {
    if i > j {
      FlattenSwapOrderedKeepsBags(bins, j, i);
      SwapSymmetric(bins, i, j);
    } else if i < j {
      FlattenSwapOrderedKeepsBags(bins, i, j);
    } else {
      assert SwapAt(bins, i, j) == bins;
    }
  }

  /** Flatten of bins laid out as a, [x], b, [y], c. */
  lemma FlattenFive(a: seq<seq<int>>, x: seq<int>, b: seq<seq<int>>, y: seq<int>, c: seq<seq<int>>)
    ensures Flatten(a + [x] + b + [y] + c) == Flatten(a) + x + Flatten(b) + y + Flatten(c)
  {
    FlattenConcat(a + [x] + b + [y], c);
    FlattenAppend(a + [x] + b, y);
    FlattenConcat(a + [x], b);
    FlattenAppend(a, x);
  }

  /** Flatten distributes over concatenation of bin lists. */
  lemma {:induction false} FlattenConcat(p: seq<seq<int>>, q: seq<seq<int>>)
    ensures Flatten(p + q) == Flatten(p) + Flatten(q)
    decreases |q|
  {
    if q != [] {
      var front, last := q[..|q| - 1], q[|q| - 1];
      assert p + q == (p + front) + [last];
      assert q == front + [last];
      FlattenAppend(p + front, last);
      FlattenAppend(front, last);
      FlattenConcat(p, front);
    } else {
      assert p + q == p;
    }
  }

  /** Shuffling the bins keeps the bags they hold. */
  lemma {:induction false} FisherYatesKeepsBags(bins: seq<seq<int>>, source: nat -> nat, cursor: nat, i: nat)
    requires i <= |bins|
    ensures multiset(Flatten(FisherYates(bins, source, cursor, i))) == multiset(Flatten(bins))
    decreases |bins| - i
  {
    if i < |bins| {
      var j := ShufflePick(source, cursor, i, |bins|);
      FlattenSwapKeepsBags(bins, i, j);
      FisherYatesKeepsBags(SwapAt(bins, i, j), source, cursor + 1, i + 1);
    }
  }

  /** The nested loop of shuffle_bins: the bags of every bin, bin after bin. */
  method Concatenate(bins: seq<seq<int>>) returns (bags: seq<int>)
    ensures bags == Flatten(bins)
  {
    bags := [];
    var k := 0;
    while k < |bins|
      invariant 0 <= k <= |bins|
      invariant bags == Flatten(bins[..k])
    {
      var bin := bins[k];
      var j := 0;
      while j < |bin|
        invariant 0 <= j <= |bin|
        invariant bags == Flatten(bins[..k]) + bin[..j]
      {
        bags := bags + [bin[j]];
        j := j + 1;
      }
      assert bins[..k + 1] == bins[..k] + [bin];
      FlattenAppend(bins[..k], bin);
      k := k + 1;
    }
    assert bins[..|bins|] == bins;
  }

  /** shuffle_bins: the solution's bins shuffled with the factory's engine and laid end to end. */
  method ShuffleBins(solution: Solution, engine: Engine) returns (r: Solution)
    modifies engine
    ensures fresh(r) && r.limit == BinWeightLimit
    ensures r.bags == Flatten(FisherYates(Bins(solution.bags, solution.limit), engine.source, old(engine.drawn), 0))
    ensures multiset(r.bags) == multiset(solution.bags)
    ensures engine.drawn == old(engine.drawn) + |Bins(solution.bags, solution.limit)|
  {
    var bins := solution.GetBins();
    ghost var cursor := engine.drawn;
    bins := Shuffle(bins, engine);
    var newBags := Concatenate(bins);
    FisherYatesKeepsBags(Bins(solution.bags, solution.limit), engine.source, cursor, 0);
    BinsFlattenToBags(solution.bags, solution.limit);
    r := new Solution(BinWeightLimit, newBags);
  }

  /** The selected mutation callback. */
  method Mutate(kind: MutationMethod, solution: Solution, engine: Engine, solutionEngine: Engine) returns (r: Solution)
    requires engine != solutionEngine
    requires solution.limit == BinWeightLimit && |solution.bags| >= 1
    modifies engine, solutionEngine
    ensures fresh(r) && r.limit == BinWeightLimit
    ensures r.bags == Mutation(kind, solution.bags, engine.source, old(engine.drawn), solutionEngine.source, old(solutionEngine.drawn))
    ensures multiset(r.bags) == multiset(solution.bags)
    ensures engine.drawn == old(engine.drawn) + FactoryDraws(kind, solution.bags)
    ensures solutionEngine.drawn == old(solutionEngine.drawn) + SolutionDraws(kind)
  {
    match kind
    case SwapAdjacentBags =>
      r := SwapRandomAdjacentBags(solution, solutionEngine);
    case ShuffleBinOrder =>
      r := ShuffleBins(solution, engine);
  }

  /** What one mutation makes of an ordering, given where each engine stands. */
  function Mutation(kind: MutationMethod, bags: seq<int>, source: nat -> nat, cursor: nat,
                    solutionSource: nat -> nat, solutionCursor: nat): seq<int>
    requires |bags| >= 1
  {
    match kind
    case SwapAdjacentBags => Neighbor(bags, DrawnIndex(solutionSource, solutionCursor, |bags|))
    case ShuffleBinOrder => Flatten(FisherYates(Bins(bags, BinWeightLimit), source, cursor, 0))
  }

  /** How far one mutation moves the factory's engine. */
  function FactoryDraws(kind: MutationMethod, bags: seq<int>): nat
  {
    match kind
    case SwapAdjacentBags => 0
    case ShuffleBinOrder => |Bins(bags, BinWeightLimit)|
  }

  /** How far one mutation moves Solution.h's engine. */
  function SolutionDraws(kind: MutationMethod): nat
  {
    match kind
    case SwapAdjacentBags => 1
    case ShuffleBinOrder => 0
  }

  /** A mutation keeps the bags of the ordering. */
  lemma MutationKeepsBags(kind: MutationMethod, bags: seq<int>, source: nat -> nat, cursor: nat,
                          solutionSource: nat -> nat, solutionCursor: nat)
    requires |bags| >= 1
    ensures multiset(Mutation(kind, bags, source, cursor, solutionSource, solutionCursor)) == multiset(bags)
  {
    if kind == ShuffleBinOrder {
      FisherYatesKeepsBags(Bins(bags, BinWeightLimit), source, cursor, 0);
      BinsFlattenToBags(bags, BinWeightLimit);
    }
  }

  /**
   * A mutation as a value: an ordering and the two engines' cursors to the
   * mutated ordering and the cursors after it.
   */
  type Mutating = (seq<int>, nat, nat) -> (seq<int>, nat, nat)

  /** The mutation the callback performs with the given engines; an empty ordering is left alone. */
  ghost function MutatingOf(kind: MutationMethod, source: nat -> nat, solutionSource: nat -> nat): Mutating
  {
    (bags: seq<int>, cursor: nat, solutionCursor: nat) =>
      if |bags| >= 1
      then (Mutation(kind, bags, source, cursor, solutionSource, solutionCursor),
            cursor + FactoryDraws(kind, bags), solutionCursor + SolutionDraws(kind))
      else (bags, cursor, solutionCursor)
  }

  /** mutate performs the selected mutation on every non-empty ordering. */
  ghost predicate RealizesMutation(mutate: Mutating, kind: MutationMethod, source: nat -> nat, solutionSource: nat -> nat)
  {
    forall bags: seq<int>, cursor: nat, solutionCursor: nat
      {:trigger Mutation(kind, bags, source, cursor, solutionSource, solutionCursor)} ::
      |bags| >= 1 ==>
        mutate(bags, cursor, solutionCursor) ==
        (Mutation(kind, bags, source, cursor, solutionSource, solutionCursor),
         cursor + FactoryDraws(kind, bags), solutionCursor + SolutionDraws(kind))
  }

  lemma MutatingOfRealizes(kind: MutationMethod, source: nat -> nat, solutionSource: nat -> nat)
    ensures RealizesMutation(MutatingOf(kind, source, solutionSource), kind, source, solutionSource)
  {
  }

  /** mutate only reorders the bags it is given. */
  ghost predicate KeepsBags(mutate: Mutating)
  {
    forall bags: seq<int>, cursor: nat, solutionCursor: nat ::
      multiset(mutate(bags, cursor, solutionCursor).0) == multiset(bags)
  }

  /** Both mutations only reorder the bags. */
  lemma MutatingOfKeepsBags(kind: MutationMethod, source: nat -> nat, solutionSource: nat -> nat)
    ensures KeepsBags(MutatingOf(kind, source, solutionSource))
  {
    var mutate := MutatingOf(kind, source, solutionSource);
    forall bags: seq<int>, cursor: nat, solutionCursor: nat
      ensures multiset(mutate(bags, cursor, solutionCursor).0) == multiset(bags)
    {
      if |bags| >= 1 {
        MutationKeepsBags(kind, bags, source, cursor, solutionSource, solutionCursor);
      }
    }
  }

  /** What mutating a list of orderings one after the other makes of them. */
  function Mutations(mutate: Mutating, bss: seq<seq<int>>, cursor: nat, solutionCursor: nat): (r: seq<seq<int>>)
    ensures |r| == |bss|
    decreases |bss|
  {
    if bss == [] then []
    else
      var (first, next, solutionNext) := mutate(bss[0], cursor, solutionCursor);
      [first] + Mutations(mutate, bss[1..], next, solutionNext)
  }

  /** Where the two engines stand after mutating a list of orderings one after the other. */
  function MutationsEnd(mutate: Mutating, bss: seq<seq<int>>, cursor: nat, solutionCursor: nat): (nat, nat)
    decreases |bss|
  {
    if bss == [] then (cursor, solutionCursor)
    else
      var (_, next, solutionNext) := mutate(bss[0], cursor, solutionCursor);
      MutationsEnd(mutate, bss[1..], next, solutionNext)
  }

  /** Mutating from position i on: the mutation of ordering i, then the rest from the cursors it leaves. */
  lemma MutationsStep(mutate: Mutating, bss: seq<seq<int>>, i: int, cursor: nat, solutionCursor: nat)
    requires 0 <= i < |bss|
    ensures Mutations(mutate, bss[i..], cursor, solutionCursor) ==
      [mutate(bss[i], cursor, solutionCursor).0] +
      Mutations(mutate, bss[i + 1..], mutate(bss[i], cursor, solutionCursor).1, mutate(bss[i], cursor, solutionCursor).2)
    ensures MutationsEnd(mutate, bss[i..], cursor, solutionCursor) ==
      MutationsEnd(mutate, bss[i + 1..], mutate(bss[i], cursor, solutionCursor).1, mutate(bss[i], cursor, solutionCursor).2)
  {
    assert bss[i..][1..] == bss[i + 1..];
  }

  /** An ordering of the instance in front of orderings of the instance. */
  lemma PermutationsCons(first: seq<int>, rest: seq<seq<int>>, instance: seq<int>)
    requires multiset(first) == multiset(instance) && AllPermutations(rest, instance)
    ensures AllPermutations([first] + rest, instance)
  {
    var all := [first] + rest;
    forall k | 0 <= k < |all|
      ensures multiset(all[k]) == multiset(instance)
    {
      if k > 0 {
        assert all[k] == rest[k - 1];
      }
    }
  }

  /** Mutating orderings of the instance gives orderings of the instance. */
  lemma {:induction false} MutationsArePermutations(mutate: Mutating, bss: seq<seq<int>>, cursor: nat, solutionCursor: nat,
                                                   instance: seq<int>)
    requires KeepsBags(mutate) && AllPermutations(bss, instance)
    ensures AllPermutations(Mutations(mutate, bss, cursor, solutionCursor), instance)
    decreases |bss|
  {
    if bss != [] {
      var (first, next, solutionNext) := mutate(bss[0], cursor, solutionCursor);
      MutationsArePermutations(mutate, bss[1..], next, solutionNext, instance);
      PermutationsCons(first, Mutations(mutate, bss[1..], next, solutionNext), instance);
    }
  }

  /** Moving one element from the rest to the done part keeps the whole. */
  lemma AppendShiftsOne<T>(done: seq<T>, x: T, rest: seq<T>, all: seq<T>)
    requires done + ([x] + rest) == all
    ensures (done + [x]) + rest == all
  {
  }

  /**
   * One pass of the mutation loop: solution i mutated and appended, stated
   * as the first element of mutating bss from i on.
   */
  method MutateNext(kind: MutationMethod, solution: Solution, engine: Engine, solutionEngine: Engine,
                    ghost mutate: Mutating, ghost bss: seq<seq<int>>, ghost i: int,
                    mutated: seq<Solution>, ghost done: seq<seq<int>>, ghost all: seq<seq<int>>, ghost end: (nat, nat))
    returns (next: seq<Solution>, ghost nextDone: seq<seq<int>>)
    requires engine != solutionEngine
    requires RealizesMutation(mutate, kind, engine.source, solutionEngine.source)
    requires 0 <= i < |bss|
    requires solution.limit == BinWeightLimit && solution.bags == bss[i] && |bss[i]| >= 1
    requires Carries(mutated, done)
    requires done + Mutations(mutate, bss[i..], engine.drawn, solutionEngine.drawn) == all
    requires MutationsEnd(mutate, bss[i..], engine.drawn, solutionEngine.drawn) == end
    modifies engine, solutionEngine
    ensures Carries(next, nextDone)
    ensures nextDone + Mutations(mutate, bss[i + 1..], engine.drawn, solutionEngine.drawn) == all
    ensures MutationsEnd(mutate, bss[i + 1..], engine.drawn, solutionEngine.drawn) == end
  {
    var child := Mutate(kind, solution, engine, solutionEngine);
    MutationsStep(mutate, bss, i, old(engine.drawn), old(solutionEngine.drawn));
    AppendShiftsOne(done, child.bags, Mutations(mutate, bss[i + 1..], engine.drawn, solutionEngine.drawn), all);
    next, nextDone := mutated + [child], done + [child.bags];
  }

  /** The mutation loop of generate_genetic_solution: every child mutated, in order. */
  method MutateAll(kind: MutationMethod, offspring: seq<Solution>, engine: Engine, solutionEngine: Engine,
                   ghost mutate: Mutating, ghost bss: seq<seq<int>>)
    returns (mutated: seq<Solution>)
    requires engine != solutionEngine
    requires RealizesMutation(mutate, kind, engine.source, solutionEngine.source)
    requires Carries(offspring, bss)
    requires forall k :: 0 <= k < |bss| ==> |bss[k]| >= 1
    modifies engine, solutionEngine
    ensures Carries(mutated, Mutations(mutate, bss, old(engine.drawn), old(solutionEngine.drawn)))
    ensures (engine.drawn, solutionEngine.drawn) == MutationsEnd(mutate, bss, old(engine.drawn), old(solutionEngine.drawn))
  {
    ghost var all := Mutations(mutate, bss, engine.drawn, solutionEngine.drawn);
    ghost var end := MutationsEnd(mutate, bss, engine.drawn, solutionEngine.drawn);
    ghost var done: seq<seq<int>> := [];
    mutated := [];
    var i := 0;
    while i < |offspring|
      invariant 0 <= i <= |offspring|
      invariant Carries(offspring, bss)
      invariant Carries(mutated, done)
      invariant done + Mutations(mutate, bss[i..], engine.drawn, solutionEngine.drawn) == all
      invariant MutationsEnd(mutate, bss[i..], engine.drawn, solutionEngine.drawn) == end
    {
      mutated, done := MutateNext(kind, offspring[i], engine, solutionEngine, mutate, bss, i, mutated, done, all, end);
      i := i + 1;
    }
    assert bss[i..] == [];
    assert done == all;
  }

  // ---------------------------------------------------------------------
  // Ending conditions
  // ---------------------------------------------------------------------

  /** GENERATION_COUNT_LIMIT */
  const GenerationCountLimit := 10

  /** SAME_FITNESS_POPULATION_PERCENT_THRESHOLD */
  const SameFitnessPopulationPercentThreshold := 70

  /** The ENDING_CONDITION_CB_MAP entries: 1 limits the generations, 2 waits for an undifferentiated population. */
  datatype EndingCondition = GenerationCount | UndifferentiatedPopulation

  /** end_on_generation_count_limit: the post-increment only changes the callback's own copy. */
  function EndOnGenerationCountLimit(generationCount: int): bool
  {
    generationCount >= GenerationCountLimit
  }

  /** solution_count_threshold: 70 percent of the population, rounded down. */
  function SolutionCountThreshold(size: nat): nat
  {
    size * SameFitnessPopulationPercentThreshold / 100
  }

  /** Some fitness, that is some filled-bin count, is shared by at least the threshold's number of solutions. */
  ghost predicate Undifferentiated(cs: seq<int>)
  {
    |cs| >= 1 && MostFrequentCount(cs, |cs|) >= SolutionCountThreshold(|cs|)
  }

  /** How often the most common of the first n bin counts occurs in the whole list. */
  ghost function MostFrequentCount(cs: seq<int>, n: nat): nat
    requires n <= |cs|
  {
    if n == 0 then 0
    else
      var m := MostFrequentCount(cs, n - 1);
      if multiset(cs)[cs[n - 1]] > m then multiset(cs)[cs[n - 1]] else m
  }

  /** No bin count among the first n occurs more often than the most common one. */
  lemma {:induction false} MostFrequentCountBounds(cs: seq<int>, n: nat, k: int)
    requires 0 <= k < n <= |cs|
    ensures multiset(cs)[cs[k]] <= MostFrequentCount(cs, n)
  {
    if k < n - 1 {
      MostFrequentCountBounds(cs, n - 1, k);
    }
  }

  /** The most common of the first n bin counts is one of them. */
  lemma {:induction false} MostFrequentCountAttained(cs: seq<int>, n: nat) returns (k: int)
    requires 1 <= n <= |cs|
    ensures 0 <= k < n && MostFrequentCount(cs, n) == multiset(cs)[cs[k]]
  {
    if n == 1 {
      k := 0;
    } else {
      var j := MostFrequentCountAttained(cs, n - 1);
      k := if multiset(cs)[cs[n - 1]] > MostFrequentCount(cs, n - 1) then n - 1 else j;
    }
  }

  /** A population is undifferentiated exactly when some bin count is shared by at least the threshold's number of solutions. */
  lemma UndifferentiatedMeansSharedCount(cs: seq<int>)
    ensures Undifferentiated(cs) <==>
      exists k :: 0 <= k < |cs| && multiset(cs)[cs[k]] >= SolutionCountThreshold(|cs|)
  {
    if |cs| >= 1 {
      var k := MostFrequentCountAttained(cs, |cs|);
      forall j | 0 <= j < |cs|
        ensures multiset(cs)[cs[j]] <= MostFrequentCount(cs, |cs|)
      {
        MostFrequentCountBounds(cs, |cs|, j);
      }
    }
  }

  /** A population whose solutions all have the same number of bins is undifferentiated. */
  lemma UniformPopulationIsUndifferentiated(cs: seq<int>)
    requires |cs| >= 1 && forall k :: 0 <= k < |cs| ==> cs[k] == cs[0]
    ensures Undifferentiated(cs)
  {
    assert multiset(cs) == multiset{}[cs[0] := |cs|] by {
      forall v ensures multiset(cs)[v] == multiset{}[cs[0] := |cs|][v] {
        if v == cs[0] {
          assert forall k :: 0 <= k < |cs| ==> cs[k] == v;
          CountAllEqual(cs, v);
        } else {
          assert v !in cs;
        }
      }
    }
    MostFrequentCountBounds(cs, |cs|, 0);
  }

  /** A sequence of equal values holds that value as many times as it is long. */
  lemma {:induction false} CountAllEqual(cs: seq<int>, v: int)
    requires forall k :: 0 <= k < |cs| ==> cs[k] == v
    ensures multiset(cs)[v] == |cs|
    decreases |cs|
  {
    if cs != [] {
      assert cs == [cs[0]] + cs[1..];
      CountAllEqual(cs[1..], v);
    }
  }

  /** Three or more solutions with pairwise different bin counts are never undifferentiated. */
  lemma DistinctPopulationIsDifferentiated(cs: seq<int>)
    requires |cs| >= 3 && forall j, k :: 0 <= j < k < |cs| ==> cs[j] != cs[k]
    ensures !Undifferentiated(cs)
  {
    var k := MostFrequentCountAttained(cs, |cs|);
    CountUnique(cs, k);
  }

  /** A value found at only one position is held once. */
  lemma {:induction false} CountUnique(cs: seq<int>, k: int)
    requires 0 <= k < |cs| && forall j :: 0 <= j < |cs| && j != k ==> cs[j] != cs[k]
    ensures multiset(cs)[cs[k]] == 1
  {
    var v := cs[k];
    assert cs == cs[..k] + [v] + cs[k + 1..];
    assert v !in cs[..k];
    assert v !in cs[k + 1..];
  }

  /** A single solution is always undifferentiated: its threshold is zero. */
  lemma SingleSolutionIsUndifferentiated(cs: seq<int>)
    requires |cs| == 1
    ensures SolutionCountThreshold(|cs|) == 0 && Undifferentiated(cs)
  {
  }

  /** A counted prefix holds no more of a value than the whole list. */
  lemma PrefixCountBounded(cs: seq<int>, i: int, v: int)
    requires 0 <= i <= |cs|
    ensures multiset(cs[..i])[v] <= multiset(cs)[v]
  {
    assert cs == cs[..i] + cs[i..];
  }

  /** Counting one more solution: its value gains one, every other value keeps its count. */
  lemma PrefixCountStep(cs: seq<int>, i: int)
    requires 0 <= i < |cs|
    ensures multiset(cs[..i + 1]) == multiset(cs[..i]) + multiset{cs[i]}
  {
    assert cs[..i + 1] == cs[..i] + [cs[i]];
  }

  /** A count reached while scanning is a count the whole population reaches. */
  lemma ThresholdReached(cs: seq<int>, i: int, m: map<int, int>)
    requires 0 <= i < |cs|
    requires m == CountMap(cs[..i + 1]) && cs[i] in m && m[cs[i]] >= SolutionCountThreshold(|cs|)
    ensures Undifferentiated(cs)
  {
    PrefixCountStep(cs, i);
    CountMapHolds(cs[..i + 1], cs[i]);
    PrefixCountBounded(cs, i + 1, cs[i]);
    MostFrequentCountBounds(cs, |cs|, i);
  }

  /** A count map of the whole population with every count below the threshold: the population is differentiated. */
  lemma NoThresholdReached(cs: seq<int>, m: map<int, int>)
    requires m == CountMap(cs) && BelowThreshold(m, SolutionCountThreshold(|cs|))
    ensures !Undifferentiated(cs)
  {
    if |cs| >= 1 {
      var k := MostFrequentCountAttained(cs, |cs|);
      CountMapHolds(cs, cs[k]);
    }
  }

  /** One more solution with the given fitness: a new entry starts at one. */
  method CountFitness(solutionCountPerFitness: map<int, int>, fitness: int) returns (m: map<int, int>)
    ensures m == solutionCountPerFitness[fitness := Lookup(solutionCountPerFitness, fitness) + 1]
  {
    if fitness in solutionCountPerFitness {
      m := solutionCountPerFitness[fitness := solutionCountPerFitness[fitness] + 1];
    } else {
      m := solutionCountPerFitness[fitness := 1];
    }
  }

  /** No fitness has been counted as often as the threshold. */
  predicate BelowThreshold(solutionCountPerFitness: map<int, int>, threshold: int)
  {
    forall w :: w in solutionCountPerFitness ==> solutionCountPerFitness[w] < threshold
  }

  /**
   * One iteration of end_on_undifferentiated_population: solution i is
   * counted, and reached tells whether its fitness has now been counted as
   * often as the threshold.
   */
  method CountSolution(population: seq<Solution>, i: int, solutionCountPerFitness: map<int, int>, solutionCountThreshold: int,
                       ghost cs: seq<int>)
    returns (next: map<int, int>, reached: bool)
    requires 0 <= i < |population| == |cs| && cs[i] == Count(population[i].bags, population[i].limit)
    requires solutionCountThreshold == SolutionCountThreshold(|population|)
    requires solutionCountPerFitness == CountMap(cs[..i]) && BelowThreshold(solutionCountPerFitness, solutionCountThreshold)
    ensures next == CountMap(cs[..i + 1])
    ensures reached ==> Undifferentiated(cs)
    ensures !reached ==> BelowThreshold(next, solutionCountThreshold)
  {
    var fitness := population[i].FilledBinCount();
    CountMapStep(cs, i);
    next := CountFitness(solutionCountPerFitness, fitness);
    reached := next[fitness] >= solutionCountThreshold;
    if reached {
      ThresholdReached(cs, i, next);
    }
  }

  /** end_on_undifferentiated_population: counts solutions per fitness and stops at the first count that reaches the threshold. */
  method EndOnUndifferentiatedPopulation(population: seq<Solution>) returns (r: bool)
    ensures r == Undifferentiated(CountsOf(population))
  {
    ghost var cs := CountsOf(population);
    var solutionCountPerFitness: map<int, int> := map[];
    var solutionCountThreshold := SolutionCountThreshold(|population|);
    var i := 0;
    while i < |population|
      invariant 0 <= i <= |population|
      invariant |cs| == |population|
      invariant forall k :: 0 <= k < |population| ==> cs[k] == Count(population[k].bags, population[k].limit)
      invariant solutionCountPerFitness == CountMap(cs[..i])
      invariant BelowThreshold(solutionCountPerFitness, solutionCountThreshold)
    {
      var reached;
      solutionCountPerFitness, reached := CountSolution(population, i, solutionCountPerFitness, solutionCountThreshold, cs);
      if reached {
        CountsAre(population, cs);
        return true;
      }
      i := i + 1;
    }
    CountsAre(population, cs);
    assert cs[..i] == cs;
    NoThresholdReached(cs, solutionCountPerFitness);
    return false;
  }

  /** Whether the selected ending condition stops the run, given the bin counts and the generation count. */
  ghost predicate Ends(ending: EndingCondition, cs: seq<int>, generationCount: int)
  {
    match ending
    case GenerationCount => EndOnGenerationCountLimit(generationCount)
    case UndifferentiatedPopulation => Undifferentiated(cs)
  }

  /** The selected ending callback. */
  method EndingConditionHolds(ending: EndingCondition, population: seq<Solution>, generationCount: int) returns (r: bool)
    ensures r == Ends(ending, CountsOf(population), generationCount)
  {
    match ending
    case GenerationCount =>
      r := EndOnGenerationCountLimit(generationCount);
    case UndifferentiatedPopulation =>
      r := EndOnUndifferentiatedPopulation(population);
  }

  /** A single solution with its threshold of zero ends the run at once. */
  lemma SingleSolutionEnds(population: seq<Solution>, generationCount: int)
    ensures |population| == 1 ==> Ends(UndifferentiatedPopulation, CountsOf(population), generationCount)
  {
    if |population| == 1 {
      SingleSolutionIsUndifferentiated(CountsOf(population));
    }
  }

  /** Under the generation count limit, the run ends exactly when ten generations have been made. */
  lemma GenerationCountEnds(cs: seq<int>, generationCount: int)
    ensures Ends(GenerationCount, cs, generationCount) <==> generationCount >= 10
  {
  }

  // ---------------------------------------------------------------------
  // The genetic algorithm
  // ---------------------------------------------------------------------

  /** The orderings select_parents hands on: tournament i keeps the ordering at the first index it draws. */
  function Selected(bss: seq<seq<int>>, source: nat -> nat, cursor: nat): (r: seq<seq<int>>)
    requires |bss| >= 1
    ensures |r| == |bss|
  {
    seq(|bss|, i requires 0 <= i < |bss| => bss[DrawnIndex(source, cursor + 2 * i, |bss|)])
  }

  /** The parents of orderings of the instance are orderings of the instance. */
  lemma SelectedArePermutations(bss: seq<seq<int>>, source: nat -> nat, cursor: nat, instance: seq<int>)
    requires |bss| >= 1 && AllPermutations(bss, instance)
    ensures AllPermutations(Selected(bss, source, cursor), instance)
  {
    var r := Selected(bss, source, cursor);
    forall i | 0 <= i < |r|
      ensures multiset(r[i]) == multiset(instance)
    {
      assert r[i] == bss[DrawnIndex(source, cursor + 2 * i, |bss|)];
    }
  }

  /** Tournament i picks the ordering at the first of its two draws. */
  lemma SelectedAt(bss: seq<seq<int>>, source: nat -> nat, cursor: nat, i: int)
    requires 0 <= i < |bss|
    ensures Selected(bss, source, cursor)[i] == bss[DrawnIndex(source, cursor + 2 * i, |bss|)]
  {
  }

  /** Parent i carries the ordering tournament i selects. */
  lemma ParentIsSelected(population: seq<Solution>, parents: seq<Solution>, source: nat -> nat, cursor: nat, i: int)
    requires |population| >= 1 && |parents| == |population| && 0 <= i < |parents|
    requires parents[i] == population[DrawnIndex(source, cursor + 2 * i, |population|)]
    ensures BagsOf(parents)[i] == Selected(BagsOf(population), source, cursor)[i]
  {
    var k := DrawnIndex(source, cursor + 2 * i, |population|);
    var bss := BagsOf(population);
    SelectedAt(bss, source, cursor, i);
    assert bss[k] == population[k].bags;
    assert BagsOf(parents)[i] == parents[i].bags;
  }

  /** The parents select_parents returns carry the selected orderings. */
  lemma ParentsAreSelected(population: seq<Solution>, parents: seq<Solution>, source: nat -> nat, cursor: nat)
    requires |population| >= 1 && |parents| == |population|
    requires forall i :: 0 <= i < |parents| ==> parents[i] == population[DrawnIndex(source, cursor + 2 * i, |population|)]
    ensures BagsOf(parents) == Selected(BagsOf(population), source, cursor)
  {
    forall i | 0 <= i < |parents|
      ensures BagsOf(parents)[i] == Selected(BagsOf(population), source, cursor)[i]
    {
      ParentIsSelected(population, parents, source, cursor, i);
    }
  }

  /** The children one generation makes: the selected parents crossed as generate_offspring pairs them. */
  function Offspring(bss: seq<seq<int>>, cross: Crossing, source: nat -> nat, cursor: nat): (r: seq<seq<int>>)
    requires |bss| >= 2
    ensures |r| == |bss|
  {
    OffspringPlanComplete(|bss|);
    Children(cross, Selected(bss, source, cursor), OffspringPlan(|bss|, |bss|))
  }

  /**
   * The orderings one generation makes: the selected parents are crossed as
   * generate_offspring pairs them, then every child is mutated in turn,
   * with the factory's engine past the 2n draws of the tournaments.
   */
  ghost function NextGeneration(bss: seq<seq<int>>, cross: Crossing, mutate: Mutating, source: nat -> nat,
                                cursor: nat, solutionCursor: nat): (r: seq<seq<int>>)
    requires |bss| >= 2
    ensures |r| == |bss|
  {
    Mutations(mutate, Offspring(bss, cross, source, cursor), cursor + 2 * |bss|, solutionCursor)
  }

  /** Where the factory's engine and Solution.h's engine stand once a generation is made. */
  ghost function NextCursors(bss: seq<seq<int>>, cross: Crossing, mutate: Mutating, source: nat -> nat,
                             cursor: nat, solutionCursor: nat): (nat, nat)
    requires |bss| >= 2
  {
    MutationsEnd(mutate, Offspring(bss, cross, source, cursor), cursor + 2 * |bss|, solutionCursor)
  }

  /** Mutating from equal cursors gives equal orderings. */
  lemma MutationsFromSameCursor(mutate: Mutating, bss: seq<seq<int>>, cursor: nat, sameCursor: nat, solutionCursor: nat)
    requires cursor == sameCursor
    ensures Mutations(mutate, bss, cursor, solutionCursor) == Mutations(mutate, bss, sameCursor, solutionCursor)
  {
  }

  /** The children of orderings of the instance are orderings of the instance. */
  lemma OffspringArePermutations(bss: seq<seq<int>>, cross: Crossing, source: nat -> nat, cursor: nat, instance: seq<int>)
    requires |bss| >= 2 && AllPermutations(bss, instance)
    requires CrossesWithin(cross, instance)
    ensures AllPermutations(Offspring(bss, cross, source, cursor), instance)
  {
    var parents := Selected(bss, source, cursor);
    SelectedArePermutations(bss, source, cursor, instance);
    OffspringPlanComplete(|bss|);
    ChildrenArePermutations(cross, instance, parents, OffspringPlan(|bss|, |bss|));
  }

  /** A generation of orderings of the instance is as large as the last and made of orderings of the instance. */
  lemma NextGenerationArePermutations(bss: seq<seq<int>>, cross: Crossing, mutate: Mutating,
                                      source: nat -> nat, cursor: nat, solutionCursor: nat, instance: seq<int>)
    requires |bss| >= 2 && AllPermutations(bss, instance)
    requires CrossesWithin(cross, instance) && KeepsBags(mutate)
    ensures |NextGeneration(bss, cross, mutate, source, cursor, solutionCursor)| == |bss|
    ensures AllPermutations(NextGeneration(bss, cross, mutate, source, cursor, solutionCursor), instance)
  {
    OffspringArePermutations(bss, cross, source, cursor, instance);
    MutationsArePermutations(mutate, Offspring(bss, cross, source, cursor), cursor + 2 * |bss|, solutionCursor, instance);
  }

  /** Selection, crossing and mutation in turn make the next generation. */
  lemma NextGenerationIs(bss: seq<seq<int>>, cross: Crossing, mutate: Mutating, source: nat -> nat, cursor: nat, mid: nat,
                         solutionCursor: nat, children: seq<seq<int>>, next: seq<seq<int>>, ends: (nat, nat))
    requires |bss| >= 2
    requires children == Offspring(bss, cross, source, cursor)
    requires mid == cursor + 2 * |bss| && next == Mutations(mutate, children, mid, solutionCursor)
    requires ends == MutationsEnd(mutate, children, mid, solutionCursor)
    ensures next == NextGeneration(bss, cross, mutate, source, cursor, solutionCursor)
    ensures ends == NextCursors(bss, cross, mutate, source, cursor, solutionCursor)
  {
    MutationsFromSameCursor(mutate, children, mid, cursor + 2 * |bss|, solutionCursor);
  }

  /** Orderings of a non-empty instance are non-empty. */
  lemma PermutationsAreNonEmpty(solutions: seq<Solution>, instance: seq<int>)
    requires |instance| >= 1 && AllPermutations(BagsOf(solutions), instance)
    ensures forall c :: c in solutions ==> |c.bags| >= 1
  {
    forall c | c in solutions
      ensures |c.bags| >= 1
    {
      var k :| 0 <= k < |solutions| && solutions[k] == c;
      assert multiset(BagsOf(solutions)[k]) == multiset(instance);
      assert |multiset(c.bags)| == |multiset(instance)|;
    }
  }

  /** Selection and crossing: the offspring of the population's tournament winners. */
  method Breed(population: seq<Solution>, crossover: CrossoverMethod, bagCountPerWeight: map<int, int>, engine: Engine,
               ghost instance: seq<int>, ghost cross: Crossing)
    returns (offspring: seq<Solution>)
    requires Realizes(cross, crossover, instance)
    requires |instance| >= 1 && bagCountPerWeight == CountMap(instance)
    requires |population| >= 2
    requires forall c :: c in population ==> c.limit == BinWeightLimit
    requires AllPermutations(BagsOf(population), instance)
    modifies engine
    ensures engine.drawn == old(engine.drawn) + 2 * |population|
    ensures forall c :: c in offspring ==> c.limit == BinWeightLimit && |c.bags| >= 1
    ensures BagsOf(offspring) ==
      Offspring(old(BagsOf(population)), cross, engine.source, old(engine.drawn))
  {
    ghost var bss, cursor := BagsOf(population), engine.drawn;
    var parents := SelectParents(population, engine);
    assert BagsOf(population) == bss;
    ParentsAreSelected(population, parents, engine.source, cursor);
    SelectedArePermutations(bss, engine.source, cursor, instance);
    offspring := GenerateOffspring(parents, crossover, bagCountPerWeight, instance, cross);
    PermutationsAreNonEmpty(offspring, instance);
  }

  /** The body of generate_genetic_solution's loop: select, cross, mutate. */
  method Generation(population: seq<Solution>, crossover: CrossoverMethod, mutation: MutationMethod,
                    bagCountPerWeight: map<int, int>, engine: Engine, solutionEngine: Engine,
                    ghost instance: seq<int>, ghost cross: Crossing, ghost mutate: Mutating)
    returns (next: seq<Solution>)
    requires engine != solutionEngine
    requires Realizes(cross, crossover, instance)
    requires RealizesMutation(mutate, mutation, engine.source, solutionEngine.source)
    requires |instance| >= 1 && bagCountPerWeight == CountMap(instance)
    requires |population| >= 2
    requires KeepsBags(mutate)
    requires forall c :: c in population ==> c.limit == BinWeightLimit
    requires AllPermutations(BagsOf(population), instance)
    modifies engine, solutionEngine
    ensures |next| == |population|
    ensures forall c :: c in next ==> c.limit == BinWeightLimit
    ensures BagsOf(next) ==
      NextGeneration(old(BagsOf(population)), cross, mutate, engine.source, old(engine.drawn), old(solutionEngine.drawn))
    ensures (engine.drawn, solutionEngine.drawn) ==
      NextCursors(old(BagsOf(population)), cross, mutate, engine.source, old(engine.drawn), old(solutionEngine.drawn))
    ensures AllPermutations(BagsOf(next), instance)
  {
    ghost var bss, cursor, solutionCursor := BagsOf(population), engine.drawn, solutionEngine.drawn;
    var offspring := Breed(population, crossover, bagCountPerWeight, engine, instance, cross);
    ghost var children, mid := BagsOf(offspring), engine.drawn;
    next := MutateAll(mutation, offspring, engine, solutionEngine, mutate, children);
    BagsAre(next, Mutations(mutate, children, mid, old(solutionEngine.drawn)));
    NextGenerationIs(bss, cross, mutate, engine.source, cursor, mid, solutionCursor, children, BagsOf(next),
                     (engine.drawn, solutionEngine.drawn));
    RealizedCrossesWithin(cross, crossover, instance);
    NextGenerationArePermutations(bss, cross, mutate, engine.source, cursor, solutionCursor, instance);
  }

  /** The crossover callback chosen for a run, as a value. */
  lemma SelectedCrossing(kind: CrossoverMethod, instance: seq<int>) returns (cross: Crossing)
    ensures cross == CrossingOf(kind, instance) && Realizes(cross, kind, instance)
  {
    cross := CrossingOf(kind, instance);
    CrossingOfRealizes(kind, instance);
  }

  /** The mutation callback chosen for a run, as a value. */
  lemma SelectedMutation(kind: MutationMethod, source: nat -> nat, solutionSource: nat -> nat) returns (mutate: Mutating)
    ensures mutate == MutatingOf(kind, source, solutionSource)
    ensures RealizesMutation(mutate, kind, source, solutionSource) && KeepsBags(mutate)
  {
    mutate := MutatingOf(kind, source, solutionSource);
    MutatingOfRealizes(kind, source, solutionSource);
    MutatingOfKeepsBags(kind, source, solutionSource);
  }

  /** generate_population for a run: orderings of the instance, as many as asked for. */
  method InitialPopulation(garbageBags: seq<int>, populationSize: int, engine: Engine) returns (population: seq<Solution>)
    requires populationSize >= 1
    modifies engine
    ensures |population| == populationSize
    ensures forall c :: c in population ==> c.limit == BinWeightLimit
    ensures AllPermutations(BagsOf(population), garbageBags)
    ensures BagsOf(population) == Shuffles(garbageBags, engine.source, old(engine.drawn), populationSize)
    ensures engine.drawn == ShuffleCursor(old(engine.drawn), |garbageBags|, populationSize)
  {
    ghost var start := engine.drawn;
    population := GeneratePopulation(garbageBags, populationSize, engine);
    ShufflesArePermutations(garbageBags, engine.source, start, |population|);
  }

  /** A population's orderings with the positions the factory's engine and Solution.h's engine stand at. */
  datatype Stage = Stage(bss: seq<seq<int>>, cursor: nat, solutionCursor: nat)

  /** The stage one generation leads to: the next generation and where it leaves both engines. */
  ghost function Advance(cross: Crossing, mutate: Mutating, source: nat -> nat, s: Stage): (r: Stage)
    requires |s.bss| >= 2
    ensures |r.bss| == |s.bss|
  {
    var (cursor, solutionCursor) := NextCursors(s.bss, cross, mutate, source, s.cursor, s.solutionCursor);
    Stage(NextGeneration(s.bss, cross, mutate, source, s.cursor, s.solutionCursor), cursor, solutionCursor)
  }

  /**
   * One generation as a step on stages. A population of fewer than two
   * solutions, on which every run ends before its first generation, is
   * left as it is.
   */
  ghost function GenerationStep(cross: Crossing, mutate: Mutating, source: nat -> nat): Stage -> Stage
  {
    (st: Stage) => if |st.bss| >= 2 then Advance(cross, mutate, source, st) else st
  }

  /**
   * step agrees with GenerationStep(cross, mutate, source) on every stage:
   * it makes a generation from a population of two or more and leaves a
   * smaller one as it is.
   */
  ghost predicate IsGenerationStep(step: Stage -> Stage, cross: Crossing, mutate: Mutating, source: nat -> nat)
  {
    && (forall st: Stage {:trigger Advance(cross, mutate, source, st)} ::
          |st.bss| >= 2 ==> step(st) == Advance(cross, mutate, source, st))
    && (forall st: Stage :: |st.bss| < 2 ==> step(st) == st)
  }

  /** GenerationStep is a generation step. */
  lemma GenerationStepIs(cross: Crossing, mutate: Mutating, source: nat -> nat)
    ensures IsGenerationStep(GenerationStep(cross, mutate, source), cross, mutate, source)
  {
  }

  /** A stage together with the k stages that k steps lead to from it. */
  ghost function Stages(step: Stage -> Stage, s: Stage, k: nat): (r: seq<Stage>)
    ensures |r| == k + 1 && r[0] == s
    decreases k
  {
    if k == 0 then [s]
    else
      var before := Stages(step, s, k - 1);
      before + [step(before[k - 1])]
  }

  /** k steps begin as every shorter run of steps from the same stage. */
  lemma {:induction false} StagesPrefix(step: Stage -> Stage, s: Stage, j: nat, k: nat)
    requires j <= k
    ensures Stages(step, s, k)[..j + 1] == Stages(step, s, j)
    decreases k
  {
    if j < k {
      StagesPrefix(step, s, j, k - 1);
      var longer := Stages(step, s, k);
      assert longer[..k] == Stages(step, s, k - 1);
      assert longer[..j + 1] == longer[..k][..j + 1];
    }
  }

  /** Each stage after the first is the step from the stage before it. */
  lemma StagesStep(step: Stage -> Stage, s: Stage, k: nat, g: nat)
    requires g < k
    ensures Stages(step, s, k)[g + 1] == step(Stages(step, s, k)[g])
  {
    StagesPrefix(step, s, g + 1, k);
    var run := Stages(step, s, k);
    var shorter := Stages(step, s, g + 1);
    assert run[g + 1] == run[..g + 2][g + 1] == shorter[g + 1];
    assert run[g] == run[..g + 2][g] == shorter[g];
  }

  /** The stages of a run of k generations from s. */
  ghost function Evolution(cross: Crossing, mutate: Mutating, source: nat -> nat, s: Stage, k: nat): (r: seq<Stage>)
    ensures |r| == k + 1 && r[0] == s
  {
    Stages(GenerationStep(cross, mutate, source), s, k)
  }

  /**
   * Every stage of a run from a population of two or more has that many
   * solutions, and each is the generation made from the stage before it,
   * with both engines where that generation leaves them.
   */
  lemma {:induction false} EvolutionAdvances(cross: Crossing, mutate: Mutating, source: nat -> nat, s: Stage, k: nat, g: nat)
    requires |s.bss| >= 2 && g <= k
    ensures |Evolution(cross, mutate, source, s, k)[g].bss| == |s.bss|
    ensures g < k ==>
      Evolution(cross, mutate, source, s, k)[g + 1] == Advance(cross, mutate, source, Evolution(cross, mutate, source, s, k)[g])
    decreases g
  {
    var step := GenerationStep(cross, mutate, source);
    var run := Stages(step, s, k);
    if g > 0 {
      EvolutionAdvances(cross, mutate, source, s, k, g - 1);
      StagesStep(step, s, k, g - 1);
    }
    if g < k {
      StagesStep(step, s, k, g);
    }
  }

  /** A generation made from a population of two or more is the step the run takes from it. */
  lemma GenerationIsStep(step: Stage -> Stage, cross: Crossing, mutate: Mutating, source: nat -> nat, s: Stage,
                         next: Stage)
    requires IsGenerationStep(step, cross, mutate, source)
    requires |s.bss| >= 2
    requires next.bss == NextGeneration(s.bss, cross, mutate, source, s.cursor, s.solutionCursor)
    requires (next.cursor, next.solutionCursor) == NextCursors(s.bss, cross, mutate, source, s.cursor, s.solutionCursor)
    ensures step(s) == next
  {
    assert Advance(cross, mutate, source, s) == next;
  }

  /**
   * Recording one more stage and the counts of the stage before it keeps
   * the stages a run of steps and the record its bin counts.
   */
  lemma RecordStage(step: Stage -> Stage, start: Stage, stages: seq<Stage>, history: seq<seq<int>>, generations: nat,
                    next: Stage, counts: seq<int>)
    requires stages == Stages(step, start, generations) && |history| == generations
    requires forall g :: 0 <= g < generations ==> history[g] == BagCounts(stages[g].bss, BinWeightLimit)
    requires counts == BagCounts(stages[generations].bss, BinWeightLimit)
    requires step(stages[generations]) == next
    ensures stages + [next] == Stages(step, start, generations + 1)
    ensures (stages + [next])[generations + 1] == next
    ensures forall g :: 0 <= g < generations + 1 ==>
      (history + [counts])[g] == BagCounts((stages + [next])[g].bss, BinWeightLimit)
  {
    forall g | 0 <= g < generations + 1
      ensures (history + [counts])[g] == BagCounts((stages + [next])[g].bss, BinWeightLimit)
    {
      assert (stages + [next])[g] == stages[g];
    }
  }

  /**
   * stages are the run of step from start, one stage per recorded count and
   * one more, and history holds the bin counts of every stage but the last.
   */
  ghost predicate Recorded(step: Stage -> Stage, start: Stage, stages: seq<Stage>, history: seq<seq<int>>)
  {
    && stages == Stages(step, start, |history|)
    && forall g :: 0 <= g < |history| ==> history[g] == BagCounts(stages[g].bss, BinWeightLimit)
  }

  /**
   * The state of a run between generations: population carries the
   * orderings bags, each an ordering of the instance, and the run recorded
   * so far ends at those orderings and the positions the engines have reached.
   */
  ghost predicate Evolving(population: seq<Solution>, bags: seq<seq<int>>, instance: seq<int>, step: Stage -> Stage,
                           start: Stage, stages: seq<Stage>, history: seq<seq<int>>, engine: Engine,
                           solutionEngine: Engine)
    reads population, engine, solutionEngine
  {
    && Carries(population, bags)
    && AllPermutations(bags, instance)
    && Recorded(step, start, stages, history)
    && stages[|history|] == Stage(bags, engine.drawn, solutionEngine.drawn)
  }

  /**
   * A generation bred from the last stage of a run, recorded with the counts
   * of that stage, extends the run by one step and its record by one entry.
   */
  lemma RecordGeneration(step: Stage -> Stage, cross: Crossing, mutate: Mutating, source: nat -> nat, start: Stage,
                         stages: seq<Stage>, history: seq<seq<int>>, counts: seq<int>, next: Stage)
    requires IsGenerationStep(step, cross, mutate, source)
    requires Recorded(step, start, stages, history)
    requires |stages[|history|].bss| >= 2
    requires counts == BagCounts(stages[|history|].bss, BinWeightLimit)
    requires next.bss == NextGeneration(stages[|history|].bss, cross, mutate, source, stages[|history|].cursor,
                                        stages[|history|].solutionCursor)
    requires (next.cursor, next.solutionCursor) == NextCursors(stages[|history|].bss, cross, mutate, source,
                                                               stages[|history|].cursor, stages[|history|].solutionCursor)
    ensures Recorded(step, start, stages + [next], history + [counts])
    ensures (stages + [next])[|history| + 1] == next
  {
    GenerationIsStep(step, cross, mutate, source, stages[|history|], next);
    RecordStage(step, start, stages, history, |history|, next, counts);
  }

  /** Under the bin weight limit, the counts of the solutions are the counts of the orderings they carry. */
  lemma CountsOfCarried(solutions: seq<Solution>, bss: seq<seq<int>>)
    requires Carries(solutions, bss)
    ensures CountsOf(solutions) == BagCounts(bss, BinWeightLimit)
  {
    CountsAre(solutions, BagCounts(bss, BinWeightLimit));
  }

  /** No recorded population met the ending condition at its generation count. */
  ghost predicate Ongoing(ending: EndingCondition, history: seq<seq<int>>)
  {
    forall g :: 0 <= g < |history| ==> !Ends(ending, history[g], g)
  }

  /** A population that does not end the run extends the record. */
  lemma OngoingAppend(ending: EndingCondition, history: seq<seq<int>>, counts: seq<int>)
    requires Ongoing(ending, history) && !Ends(ending, counts, |history|)
    ensures Ongoing(ending, history + [counts])
  {
    assert forall g :: 0 <= g < |history| ==> (history + [counts])[g] == history[g];
  }

  /** A population that did not end the run replaced by the next generation, with the callbacks the run selected. */
  method NextPopulation(population: seq<Solution>, crossover: CrossoverMethod, mutation: MutationMethod,
                        bagCountPerWeight: map<int, int>, engine: Engine, solutionEngine: Engine,
                        ghost instance: seq<int>, ghost bags: seq<seq<int>>)
    returns (next: seq<Solution>, ghost nextBags: seq<seq<int>>)
    requires engine != solutionEngine
    requires |instance| >= 1 && bagCountPerWeight == CountMap(instance)
    requires |population| >= 2 && |bags| == |population|
    requires forall k :: 0 <= k < |population| ==> population[k].limit == BinWeightLimit && population[k].bags == bags[k]
    requires AllPermutations(bags, instance)
    modifies engine, solutionEngine
    ensures |next| == |population| == |nextBags|
    ensures forall k :: 0 <= k < |next| ==> next[k].limit == BinWeightLimit && next[k].bags == nextBags[k]
    ensures AllPermutations(nextBags, instance)
    ensures nextBags == NextGeneration(bags, CrossingOf(crossover, instance),
                                       MutatingOf(mutation, engine.source, solutionEngine.source),
                                       engine.source, old(engine.drawn), old(solutionEngine.drawn))
    ensures (engine.drawn, solutionEngine.drawn) ==
      NextCursors(bags, CrossingOf(crossover, instance), MutatingOf(mutation, engine.source, solutionEngine.source),
                  engine.source, old(engine.drawn), old(solutionEngine.drawn))
  {
    BagsAre(population, bags);
    ghost var cross := SelectedCrossing(crossover, instance);
    ghost var mutate := SelectedMutation(mutation, engine.source, solutionEngine.source);
    next := Generation(population, crossover, mutation, bagCountPerWeight, engine, solutionEngine, instance, cross, mutate);
    nextBags := BagsOf(next);
  }

  /**
   * One generation of the loop, with its record: the population is replaced
   * by the next generation, the stages grow by the step the run takes, and
   * the record by the bin counts of the population replaced.
   */
  method EvolveStep(population: seq<Solution>, crossover: CrossoverMethod, mutation: MutationMethod,
                    bagCountPerWeight: map<int, int>, engine: Engine, solutionEngine: Engine,
                    ghost instance: seq<int>, ghost bags: seq<seq<int>>, ghost step: Stage -> Stage, ghost start: Stage,
                    ghost stages: seq<Stage>, ghost history: seq<seq<int>>, ghost counts: seq<int>)
    returns (next: seq<Solution>, ghost nextBags: seq<seq<int>>, ghost nextStages: seq<Stage>,
             ghost nextHistory: seq<seq<int>>)
    requires engine != solutionEngine
    requires |instance| >= 1 && bagCountPerWeight == CountMap(instance)
    requires |population| >= 2
    requires IsGenerationStep(step, CrossingOf(crossover, instance),
                              MutatingOf(mutation, engine.source, solutionEngine.source), engine.source)
    requires Evolving(population, bags, instance, step, start, stages, history, engine, solutionEngine)
    requires counts == CountsOf(population)
    modifies engine, solutionEngine
    ensures |next| == |population|
    ensures nextHistory == history + [counts]
    ensures Evolving(next, nextBags, instance, step, start, nextStages, nextHistory, engine, solutionEngine)
  {
    CountsOfCarried(population, bags);
    next, nextBags := NextPopulation(population, crossover, mutation, bagCountPerWeight, engine, solutionEngine, instance,
                                     bags);
    ghost var reached := Stage(nextBags, engine.drawn, solutionEngine.drawn);
    RecordGeneration(step, CrossingOf(crossover, instance), MutatingOf(mutation, engine.source, solutionEngine.source),
                     engine.source, start, stages, history, counts, reached);
    nextStages, nextHistory := stages + [reached], history + [counts];
  }

  /**
   * The loop of generate_genetic_solution, cut off after fuel generations:
   * it stops at the first generation whose population meets the ending
   * condition. stages are the populations it went through with the engine
   * positions at each: the run of step, a generation step with the
   * callbacks the run selected, from the population it is given. history
   * holds the bin counts of every population that did not end it.
   */
  method Evolve(population: seq<Solution>, crossover: CrossoverMethod, mutation: MutationMethod, ending: EndingCondition,
                bagCountPerWeight: map<int, int>, engine: Engine, solutionEngine: Engine, fuel: nat,
                ghost instance: seq<int>, ghost step: Stage -> Stage)
    returns (last: seq<Solution>, generations: nat, ghost history: seq<seq<int>>, ghost stages: seq<Stage>)
    requires engine != solutionEngine
    requires IsGenerationStep(step, CrossingOf(crossover, instance),
                              MutatingOf(mutation, engine.source, solutionEngine.source), engine.source)
    requires |instance| >= 1 && bagCountPerWeight == CountMap(instance)
    requires |population| >= 2 || (|population| == 1 && ending == UndifferentiatedPopulation)
    requires forall c :: c in population ==> c.limit == BinWeightLimit
    requires AllPermutations(BagsOf(population), instance)
    modifies engine, solutionEngine
    ensures |last| == |population|
    ensures forall c :: c in last ==> c.limit == BinWeightLimit
    ensures AllPermutations(BagsOf(last), instance)
    ensures generations <= fuel && |history| == generations
    ensures Ongoing(ending, history)
    ensures generations < fuel ==> Ends(ending, CountsOf(last), generations)
    ensures stages == Stages(step, Stage(old(BagsOf(population)), old(engine.drawn), old(solutionEngine.drawn)), generations)
    ensures BagsOf(last) == stages[generations].bss
    ensures engine.drawn == stages[generations].cursor && solutionEngine.drawn == stages[generations].solutionCursor
    ensures forall g :: 0 <= g < generations ==> history[g] == BagCounts(stages[g].bss, BinWeightLimit)
  {
    ghost var start := Stage(BagsOf(population), engine.drawn, solutionEngine.drawn);
    last := population;
    ghost var bags := BagsOf(population);
    var generationCount := 0;
    generations := 0;
    history := [];
    stages := [start];
    while generations < fuel
      invariant |last| == |population|
      invariant generationCount == generations <= fuel
      invariant |history| == generations
      invariant Ongoing(ending, history)
      invariant Evolving(last, bags, instance, step, start, stages, history, engine, solutionEngine)
    {
      var ends := EndingConditionHolds(ending, last, generationCount);
      ghost var counts := CountsOf(last);
      generationCount := generationCount + 1;
      if ends {
        break;
      }
      SingleSolutionEnds(last, generations);
      OngoingAppend(ending, history, counts);
      last, bags, stages, history := EvolveStep(last, crossover, mutation, bagCountPerWeight, engine, solutionEngine,
                                                instance, bags, step, start, stages, history, counts);
      generations := generations + 1;
    }
    BagsAre(last, bags);
  }

  /**
   * generate_genetic_solution: a random population evolved until the ending
   * condition holds, of which the first solution with the fewest filled
   * bins is returned. population is the last generation; stages are the
   * run of Evolution from the population_size shuffles of the bag list.
   */
  method GenerateGeneticSolution(garbageBags: seq<int>, populationSize: int, crossover: CrossoverMethod,
                                 mutation: MutationMethod, ending: EndingCondition,
                                 engine: Engine, solutionEngine: Engine, fuel: nat)
    returns (best: Solution, generations: nat, ghost population: seq<Solution>, ghost history: seq<seq<int>>,
             ghost stages: seq<Stage>)
    requires engine != solutionEngine
    requires |garbageBags| >= 1
    requires populationSize >= 2 || (populationSize == 1 && ending == UndifferentiatedPopulation)
    modifies engine, solutionEngine
    ensures |population| == populationSize
    ensures forall c :: c in population ==> c.limit == BinWeightLimit
    ensures AllPermutations(BagsOf(population), garbageBags)
    ensures best == population[FirstMinIndex(CountsOf(population))]
    ensures generations <= fuel && |history| == generations
    ensures Ongoing(ending, history)
    ensures generations < fuel ==> Ends(ending, CountsOf(population), generations)
    ensures stages ==
      Evolution(CrossingOf(crossover, garbageBags), MutatingOf(mutation, engine.source, solutionEngine.source), engine.source,
                Stage(Shuffles(garbageBags, engine.source, old(engine.drawn), populationSize),
                      ShuffleCursor(old(engine.drawn), |garbageBags|, populationSize), old(solutionEngine.drawn)),
                generations)
    ensures BagsOf(population) == stages[generations].bss
    ensures engine.drawn == stages[generations].cursor && solutionEngine.drawn == stages[generations].solutionCursor
    ensures forall g :: 0 <= g < generations ==> history[g] == BagCounts(stages[g].bss, BinWeightLimit)
  {
    var bagCountPerWeight := GenerateBagCountPerWeightMap(garbageBags);
    var initial := InitialPopulation(garbageBags, populationSize, engine);
    ghost var step := GenerationStep(CrossingOf(crossover, garbageBags),
                                     MutatingOf(mutation, engine.source, solutionEngine.source), engine.source);
    GenerationStepIs(CrossingOf(crossover, garbageBags), MutatingOf(mutation, engine.source, solutionEngine.source),
                     engine.source);
    var last;
    last, generations, history, stages := Evolve(initial, crossover, mutation, ending, bagCountPerWeight, engine,
                                                 solutionEngine, fuel, garbageBags, step);
    var largest := MaxElementByFewestBins(last);
    best := last[largest];
    population := last;
  }

  /** Under the generation count limit a run makes ten generations, or fewer when the fuel runs out first. */
  lemma GenerationCountRun(fuel: nat, generations: nat, history: seq<seq<int>>, cs: seq<int>)
    requires generations <= fuel && |history| == generations
    requires forall g :: 0 <= g < generations ==> !Ends(GenerationCount, history[g], g)
    requires generations < fuel ==> Ends(GenerationCount, cs, generations)
    ensures generations == if fuel < GenerationCountLimit then fuel else GenerationCountLimit
  {
    if generations > 0 {
      assert !Ends(GenerationCount, history[generations - 1], generations - 1);
    }
  }
}
