/**
 * The Crossover class of the genetic algorithm and the two crossovers built
 * on it: bag striping and bin striping. Each child is first offered bags
 * from the parents, subject to the availability rule, and then completed
 * into a reordering of the instance.
 *
 * The global BAG_COUNT_PER_WEIGHT_MAP is handed to the constructor, together
 * with the (ghost) bag list it was counted from.
 */
module Crossovers {
  import opened Packing
  import opened Instance
  import opened Solutions
  import opened KeyOrder
  import opened WeightCounts

  /** The first n bags of the list offered one after the other, each at the end of the child (the default index -1). */
  function OfferFirst(c: Child, target: map<int, int>, bags: seq<int>, n: nat): Child
    requires n <= |bags|
  {
    if n == 0 then c else Offer(OfferFirst(c, target, bags, n - 1), target, bags[n - 1], -1)
  }

  /** Offering the next bag of the list extends the offers by one. */
  lemma OfferFirstNext(c: Child, target: map<int, int>, bags: seq<int>, k: nat, before: Child, after: Child)
    requires k < |bags|
    requires before == OfferFirst(c, target, bags, k) && after == Offer(before, target, bags[k], -1)
    ensures after == OfferFirst(c, target, bags, k + 1)
  {
  }

  /** Every bag of a reordering of the instance has a count. */
  lemma InstanceBagsCounted(bags: seq<int>, instance: seq<int>)
    requires multiset(bags) == multiset(instance)
    ensures forall k :: 0 <= k < |bags| ==> bags[k] in CountMap(instance)
  {
    forall k | 0 <= k < |bags|
      ensures bags[k] in CountMap(instance)
    {
      assert bags[k] in multiset(bags);
      CountMapHolds(instance, bags[k]);
    }
  }

  /** Only the first n bags of the list matter to their offers. */
  lemma {:induction false} OfferFirstPrefix(c: Child, target: map<int, int>, s: seq<int>, t: seq<int>, n: nat)
    requires n <= |s| && n <= |t|
    requires forall k :: 0 <= k < n ==> s[k] == t[k]
    ensures OfferFirst(c, target, s, n) == OfferFirst(c, target, t, n)
    decreases n
  {
    if n > 0 {
      OfferFirstPrefix(c, target, s, t, n - 1);
    }
  }

  /** Offering a list and then the first n bags of another is offering that much of their concatenation. */
  lemma {:induction false} OfferFirstConcat(c: Child, target: map<int, int>, xs: seq<int>, ys: seq<int>, n: nat)
    requires n <= |ys|
    ensures OfferFirst(OfferFirst(c, target, xs, |xs|), target, ys, n) == OfferFirst(c, target, xs + ys, |xs| + n)
    decreases n
  {
    if n == 0 {
      OfferFirstPrefix(c, target, xs, xs + ys, |xs|);
    } else {
      OfferFirstConcat(c, target, xs, ys, n - 1);
      assert (xs + ys)[|xs| + n - 1] == ys[n - 1];
    }
  }

  /** Offering bags of the instance keeps a child's count map its own and within the instance. */
  lemma {:induction false} OfferFirstKeeps(c: Child, target: map<int, int>, bags: seq<int>, n: nat)
    requires Tallied(c) && Fits(c.counts, target) && Positive(target)
    requires forall x :: x in bags ==> x in target
    requires n <= |bags|
    ensures Tallied(OfferFirst(c, target, bags, n)) && Fits(OfferFirst(c, target, bags, n).counts, target)
    decreases n
  {
    if n > 0 {
      OfferFirstKeeps(c, target, bags, n - 1);
      var before := OfferFirst(c, target, bags, n - 1);
      assert bags[n - 1] in bags;
      OfferKeepsTally(before, target, bags[n - 1], -1);
      OfferStaysWithin(before, target, bags[n - 1], -1);
    }
  }

  /**
   * The bags bag striping offers one child over the first n positions: the
   * child's own parent's bag at odd positions, the other parent's at even
   * ones.
   */
  function BagStripe(own: seq<int>, other: seq<int>, n: nat): (stripe: seq<int>)
    requires n <= |own| && n <= |other|
    ensures |stripe| == n
  {
    if n == 0 then [] else BagStripe(own, other, n - 1) + [if (n - 1) % 2 == 1 then own[n - 1] else other[n - 1]]
  }

  /** Bag striping only offers bags of the two parents. */
  lemma {:induction false} BagStripeWithin(own: seq<int>, other: seq<int>, n: nat, pool: multiset<int>)
    requires n <= |own| && n <= |other|
    requires multiset(own) == pool && multiset(other) == pool
    ensures forall x :: x in BagStripe(own, other, n) ==> x in pool
    decreases n
  {
    if n > 0 {
      BagStripeWithin(own, other, n - 1, pool);
      assert own[n - 1] in multiset(own) && other[n - 1] in multiset(other);
    }
  }

  /** Round i of the bag loop: offering the striped bag i extends a child's offers to the first i + 1 positions. */
  lemma OfferBagRound(before: Child, after: Child, target: map<int, int>, own: seq<int>, other: seq<int>, i: nat, bag: int)
    requires i < |own| && i < |other|
    requires bag == if i % 2 == 1 then own[i] else other[i]
    requires before == OfferFirst(NoBags, target, BagStripe(own, other, i), i)
    requires after == Offer(before, target, bag, -1)
    ensures after == OfferFirst(NoBags, target, BagStripe(own, other, i + 1), i + 1)
  {
    var stripe := BagStripe(own, other, i);
    assert BagStripe(own, other, i + 1) == stripe + [bag];
    OfferMore(before, after, target, stripe, [bag]);
  }

  /**
   * The bags of one child of cross_parents_into_striped_bags_children:
   * offered the striped bags, then completed following its own parent.
   */
  ghost function StripedBagsChild(own: seq<int>, other: seq<int>, n: nat, instance: seq<int>): (child: seq<int>)
    requires n <= |own| && n <= |other|
    requires multiset(own) == multiset(instance) && multiset(other) == multiset(instance)
    ensures multiset(child) == multiset(instance)
  {
    var target := CountMap(instance);
    var stripe := BagStripe(own, other, n);
    CountMapIsPositive(instance);
    CountMapCounts(instance);
    BagStripeWithin(own, other, n, multiset(instance));
    OfferFirstKeeps(NoBags, target, stripe, |stripe|);
    var offered := OfferFirst(NoBags, target, stripe, n);
    CompletionGivesInstance(offered, own, instance);
    Complete(offered, target, own, Ascending(target.Keys)).bags
  }

  /** A child offered the striped bags and then completed is the bag-striping child. */
  lemma IsStripedBagsChild(own: seq<int>, other: seq<int>, n: nat, instance: seq<int>, target: map<int, int>,
                           offered: Child, child: seq<int>)
    requires n <= |own| && n <= |other|
    requires multiset(own) == multiset(instance) && multiset(other) == multiset(instance)
    requires target == CountMap(instance)
    requires offered == OfferFirst(NoBags, target, BagStripe(own, other, n), n)
    requires Tallied(offered) && Fits(offered.counts, target) && Positive(target)
    requires child == Complete(offered, target, own, Ascending(target.Keys)).bags
    ensures child == StripedBagsChild(own, other, n, instance)
  {
  }

  /**
   * What bin i offers a child under bin striping: child A takes the primary
   * bin at odd i and the secondary bin at even i, child B the other way round.
   */
  function BinOffer(primary: seq<seq<int>>, secondary: seq<seq<int>>, i: nat, toA: bool): seq<int>
    requires i < |primary|
  {
    var odd := i % 2 == 1;
    (if odd == toA then primary[i] else []) + (if i < |secondary| && odd != toA then secondary[i] else [])
  }

  /** The bags the first n primary bins (and their secondary partners) offer a child. */
  function BinStripe(primary: seq<seq<int>>, secondary: seq<seq<int>>, n: nat, toA: bool): seq<int>
    requires n <= |primary|
  {
    if n == 0 then [] else BinStripe(primary, secondary, n - 1, toA) + BinOffer(primary, secondary, n - 1, toA)
  }

  /** Every bag of a bin is a bag of the ordering the bins were cut from. */
  lemma {:induction false} FlattenHoldsBins(bins: seq<seq<int>>)
    ensures forall k :: 0 <= k < |bins| ==> multiset(bins[k]) <= multiset(Flatten(bins))
    decreases |bins|
  {
    if bins != [] {
      var front := bins[..|bins| - 1];
      FlattenHoldsBins(front);
      assert Flatten(bins) == Flatten(front) + bins[|bins| - 1];
      assert multiset(Flatten(bins)) == multiset(Flatten(front)) + multiset(bins[|bins| - 1]);
    }
  }

  /** One round of bin striping only offers bags held by the bins it stripes. */
  lemma BinOfferWithin(primary: seq<seq<int>>, secondary: seq<seq<int>>, i: nat, toA: bool, pool: multiset<int>)
    requires i < |primary|
    requires multiset(primary[i]) <= pool
    requires i < |secondary| ==> multiset(secondary[i]) <= pool
    ensures forall x :: x in BinOffer(primary, secondary, i, toA) ==> x in pool
  {
    var offer := BinOffer(primary, secondary, i, toA);
    forall x | x in offer
      ensures x in pool
    {
      assert x in multiset(offer);
    }
  }

  /** Bin striping only offers bags held by the bins it stripes. */
  lemma {:induction false} BinStripeWithin(primary: seq<seq<int>>, secondary: seq<seq<int>>, n: nat, toA: bool, pool: multiset<int>)
    requires n <= |primary|
    requires forall k :: 0 <= k < |primary| ==> multiset(primary[k]) <= pool
    requires forall k :: 0 <= k < |secondary| ==> multiset(secondary[k]) <= pool
    ensures forall x :: x in BinStripe(primary, secondary, n, toA) ==> x in pool
    decreases n
  {
    if n > 0 {
      BinStripeWithin(primary, secondary, n - 1, toA, pool);
      BinOfferWithin(primary, secondary, n - 1, toA, pool);
    }
  }

  /**
   * Round i of the bin loop: offering a child its primary bin (when the
   * parity gives it that bin), then its secondary bin (likewise), extends its
   * offers from the first i rounds to the first i + 1.
   */
  lemma OfferBinRound(before: Child, mid: Child, after: Child, target: map<int, int>,
                      primary: seq<seq<int>>, secondary: seq<seq<int>>, i: nat, toA: bool, first: seq<int>, second: seq<int>)
    requires i < |primary|
    requires first == (if (i % 2 == 1) == toA then primary[i] else [])
    requires second == (if i < |secondary| && (i % 2 == 1) != toA then secondary[i] else [])
    requires before == OfferFirst(NoBags, target, BinStripe(primary, secondary, i, toA), |BinStripe(primary, secondary, i, toA)|)
    requires mid == OfferFirst(before, target, first, |first|)
    requires after == OfferFirst(mid, target, second, |second|)
    ensures after == OfferFirst(NoBags, target, BinStripe(primary, secondary, i + 1, toA), |BinStripe(primary, secondary, i + 1, toA)|)
  {
    var stripe := BinStripe(primary, secondary, i, toA);
    BinStripeNext(primary, secondary, i, toA, first, second);
    OfferMore(before, mid, target, stripe, first);
    OfferMore(mid, after, target, stripe + first, second);
  }

  /** Round i of the bin loop appends the primary and the secondary bin it hands the child. */
  lemma BinStripeNext(primary: seq<seq<int>>, secondary: seq<seq<int>>, i: nat, toA: bool, first: seq<int>, second: seq<int>)
    requires i < |primary|
    requires first == (if (i % 2 == 1) == toA then primary[i] else [])
    requires second == (if i < |secondary| && (i % 2 == 1) != toA then secondary[i] else [])
    ensures BinStripe(primary, secondary, i + 1, toA) == BinStripe(primary, secondary, i, toA) + first + second
  {
  }

  /** Offering a bin after the earlier offers is offering the stripe extended by that bin. */
  lemma OfferMore(before: Child, after: Child, target: map<int, int>, stripe: seq<int>, more: seq<int>)
    requires before == OfferFirst(NoBags, target, stripe, |stripe|)
    requires after == OfferFirst(before, target, more, |more|)
    ensures after == OfferFirst(NoBags, target, stripe + more, |stripe + more|)
  {
    OfferFirstConcat(NoBags, target, stripe, more, |more|);
  }

  /** Every bag of the bins of a reordering of the instance has a count. */
  lemma BinBagsCounted(bins: seq<seq<int>>, instance: seq<int>)
    requires forall k :: 0 <= k < |bins| ==> multiset(bins[k]) <= multiset(instance)
    ensures forall k, j :: 0 <= k < |bins| && 0 <= j < |bins[k]| ==> bins[k][j] in CountMap(instance)
  {
    forall k, j | 0 <= k < |bins| && 0 <= j < |bins[k]|
      ensures bins[k][j] in CountMap(instance)
    {
      assert bins[k][j] in multiset(bins[k]);
      CountMapHolds(instance, bins[k][j]);
    }
  }

  /** The primary bins of bin striping: parent A's when it has strictly more bins, else parent B's. */
  function PrimaryBins(binsA: seq<seq<int>>, binsB: seq<seq<int>>): seq<seq<int>>
  {
    if |binsA| > |binsB| then binsA else binsB
  }

  /** The secondary bins: the other parent's. */
  function SecondaryBins(binsA: seq<seq<int>>, binsB: seq<seq<int>>): seq<seq<int>>
  {
    if |binsA| <= |binsB| then binsA else binsB
  }

  /** The bins of a reordering of the instance hold only bags of the instance. */
  lemma BinsWithinInstance(bags: seq<int>, instance: seq<int>)
    requires multiset(bags) == multiset(instance)
    ensures forall k :: 0 <= k < |Bins(bags, BinWeightLimit)| ==>
      multiset(Bins(bags, BinWeightLimit)[k]) <= multiset(instance)
  {
    BinsFlattenToBags(bags, BinWeightLimit);
    FlattenHoldsBins(Bins(bags, BinWeightLimit));
  }

  /**
   * The bags of one child of cross_parents_into_striped_bins_children:
   * offered its stripes of the primary and secondary bins, then completed
   * following its own parent (A for child A, B for child B).
   */
  ghost function StripedBinsChild(bagsA: seq<int>, bagsB: seq<int>, toA: bool, instance: seq<int>): (child: seq<int>)
    requires multiset(bagsA) == multiset(instance) && multiset(bagsB) == multiset(instance)
    ensures multiset(child) == multiset(instance)
  {
    var binsA, binsB := Bins(bagsA, BinWeightLimit), Bins(bagsB, BinWeightLimit);
    var primary, secondary := PrimaryBins(binsA, binsB), SecondaryBins(binsA, binsB);
    var target := CountMap(instance);
    var stripe := BinStripe(primary, secondary, |primary|, toA);
    BinsWithinInstance(bagsA, instance);
    BinsWithinInstance(bagsB, instance);
    BinStripeWithin(primary, secondary, |primary|, toA, multiset(instance));
    CountMapIsPositive(instance);
    CountMapCounts(instance);
    OfferFirstKeeps(NoBags, target, stripe, |stripe|);
    var offered := OfferFirst(NoBags, target, stripe, |stripe|);
    var own := if toA then bagsA else bagsB;
    CompletionGivesInstance(offered, own, instance);
    Complete(offered, target, own, Ascending(target.Keys)).bags
  }

  /** A child offered its bin stripes and then completed following its own parent is the bin-striping child. */
  lemma IsStripedBinsChild(bagsA: seq<int>, bagsB: seq<int>, toA: bool, instance: seq<int>, target: map<int, int>,
                           primary: seq<seq<int>>, secondary: seq<seq<int>>, offered: Child, child: seq<int>)
    requires multiset(bagsA) == multiset(instance) && multiset(bagsB) == multiset(instance)
    requires target == CountMap(instance)
    requires primary == PrimaryBins(Bins(bagsA, BinWeightLimit), Bins(bagsB, BinWeightLimit))
    requires secondary == SecondaryBins(Bins(bagsA, BinWeightLimit), Bins(bagsB, BinWeightLimit))
    requires offered == OfferFirst(NoBags, target, BinStripe(primary, secondary, |primary|, toA), |BinStripe(primary, secondary, |primary|, toA)|)
    requires Tallied(offered) && Fits(offered.counts, target) && Positive(target)
    requires child == Complete(offered, target, if toA then bagsA else bagsB, Ascending(target.Keys)).bags
    ensures child == StripedBinsChild(bagsA, bagsB, toA, instance)
  {
  }

  class Crossover {
    var parentBagsA: seq<int>
    var parentBagsB: seq<int>
    var childBagsA: seq<int>
    var childBagsB: seq<int>
    var childBagCountPerWeightA: map<int, int>
    var childBagCountPerWeightB: map<int, int>
    /** BAG_COUNT_PER_WEIGHT_MAP */
    const bagCountPerWeight: map<int, int>
    ghost const instance: seq<int>

    function ChildA(): Child
      reads this
    {
      Child(childBagsA, childBagCountPerWeightA)
    }

    function ChildB(): Child
      reads this
    {
      Child(childBagsB, childBagCountPerWeightB)
    }

    /**
     * The global map counts the instance; each child's map counts that
     * child's bags, and no child holds more bags of a weight than the
     * instance.
     */
    ghost predicate Valid()
      reads this
    {
      && bagCountPerWeight == CountMap(instance) && Positive(bagCountPerWeight)
      && Tallied(ChildA()) && Fits(childBagCountPerWeightA, bagCountPerWeight)
      && Tallied(ChildB()) && Fits(childBagCountPerWeightB, bagCountPerWeight)
    }

    constructor (parentA: Solution, parentB: Solution, bagCountPerWeight: map<int, int>, ghost instance: seq<int>)
      requires bagCountPerWeight == CountMap(instance)
      ensures parentBagsA == parentA.bags && parentBagsB == parentB.bags
      ensures ChildA() == NoBags && ChildB() == NoBags
      ensures this.bagCountPerWeight == bagCountPerWeight && this.instance == instance
      ensures Valid()
    {
      parentBagsA := parentA.bags;
      parentBagsB := parentB.bags;
      childBagsA := [];
      childBagsB := [];
      childBagCountPerWeightA := map[];
      childBagCountPerWeightB := map[];
      this.bagCountPerWeight := bagCountPerWeight;
      this.instance := instance;
      new;
      CountMapIsPositive(instance);
    }

    /** insert_to_child_bags_a: the availability-guarded insertion into child A; child B and the parents are untouched. */
    method InsertToChildBagsA(bag: int, targetIndex: int)
      requires Valid()
      modifies this
      ensures ChildA() == Offer(old(ChildA()), bagCountPerWeight, bag, targetIndex)
      ensures ChildB() == old(ChildB())
      ensures parentBagsA == old(parentBagsA) && parentBagsB == old(parentBagsB)
      ensures bag in bagCountPerWeight ==> Valid()
    {
      OfferKeepsTally(ChildA(), bagCountPerWeight, bag, targetIndex);
      if bag in bagCountPerWeight {
        OfferStaysWithin(ChildA(), bagCountPerWeight, bag, targetIndex);
      }
      childBagsA, childBagCountPerWeightA :=
        InsertAvailableBagToVec(childBagsA, childBagCountPerWeightA, bagCountPerWeight, bag, targetIndex);
    }

    /** insert_to_child_bags_b: the availability-guarded insertion into child B; child A and the parents are untouched. */
    method InsertToChildBagsB(bag: int, targetIndex: int)
      requires Valid()
      modifies this
      ensures ChildB() == Offer(old(ChildB()), bagCountPerWeight, bag, targetIndex)
      ensures ChildA() == old(ChildA())
      ensures parentBagsA == old(parentBagsA) && parentBagsB == old(parentBagsB)
      ensures bag in bagCountPerWeight ==> Valid()
    {
      OfferKeepsTally(ChildB(), bagCountPerWeight, bag, targetIndex);
      if bag in bagCountPerWeight {
        OfferStaysWithin(ChildB(), bagCountPerWeight, bag, targetIndex);
      }
      childBagsB, childBagCountPerWeightB :=
        InsertAvailableBagToVec(childBagsB, childBagCountPerWeightB, bagCountPerWeight, bag, targetIndex);
    }

    /** A range-for offering every bag of a bin to child A, each at the end. */
    method InsertAllToChildBagsA(bin: seq<int>)
      requires Valid() && forall k :: 0 <= k < |bin| ==> bin[k] in bagCountPerWeight
      modifies this
      ensures Valid()
      ensures ChildA() == OfferFirst(old(ChildA()), bagCountPerWeight, bin, |bin|)
      ensures ChildB() == old(ChildB())
      ensures parentBagsA == old(parentBagsA) && parentBagsB == old(parentBagsB)
    {
      ghost var start, other := ChildA(), ChildB();
      var k := 0;
      while k < |bin|
        invariant 0 <= k <= |bin|
        invariant Valid()
        invariant ChildA() == OfferFirst(start, bagCountPerWeight, bin, k)
        invariant ChildB() == other
        invariant parentBagsA == old(parentBagsA) && parentBagsB == old(parentBagsB)
      {
        ghost var before := ChildA();
        InsertToChildBagsA(bin[k], -1);
        OfferFirstNext(start, bagCountPerWeight, bin, k, before, ChildA());
        k := k + 1;
      }
    }

    /** A range-for offering every bag of a bin to child B, each at the end. */
    method InsertAllToChildBagsB(bin: seq<int>)
      requires Valid() && forall k :: 0 <= k < |bin| ==> bin[k] in bagCountPerWeight
      modifies this
      ensures Valid()
      ensures ChildB() == OfferFirst(old(ChildB()), bagCountPerWeight, bin, |bin|)
      ensures ChildA() == old(ChildA())
      ensures parentBagsA == old(parentBagsA) && parentBagsB == old(parentBagsB)
    {
      ghost var start, other := ChildB(), ChildA();
      var k := 0;
      while k < |bin|
        invariant 0 <= k <= |bin|
        invariant Valid()
        invariant ChildB() == OfferFirst(start, bagCountPerWeight, bin, k)
        invariant ChildA() == other
        invariant parentBagsA == old(parentBagsA) && parentBagsB == old(parentBagsB)
      {
        ghost var before := ChildB();
        InsertToChildBagsB(bin[k], -1);
        OfferFirstNext(start, bagCountPerWeight, bin, k, before, ChildB());
        k := k + 1;
      }
    }

    /**
     * One inner loop of complete_child_bags_based_on_parents for child A:
     * the weight is offered at its first position in parent A until child A
     * holds as many bags of it as the instance.
     */
    method TopUpChildA(weight: int)
      requires Valid() && weight in bagCountPerWeight
      modifies this
      ensures Valid()
      ensures ChildA() == TopUp(old(ChildA()), bagCountPerWeight, weight, IndexOfWeight(parentBagsA, weight))
      ensures ChildB() == old(ChildB())
      ensures parentBagsA == old(parentBagsA) && parentBagsB == old(parentBagsB)
    {
      var count := bagCountPerWeight[weight];
      ghost var topped := TopUp(ChildA(), bagCountPerWeight, weight, IndexOfWeight(parentBagsA, weight));
      ghost var other := ChildB();
      while !(weight in childBagCountPerWeightA) || childBagCountPerWeightA[weight] != count
        invariant Valid()
        invariant ChildB() == other
        invariant parentBagsA == old(parentBagsA) && parentBagsB == old(parentBagsB)
        invariant TopUp(ChildA(), bagCountPerWeight, weight, IndexOfWeight(parentBagsA, weight)) == topped
        decreases count - multiset(childBagsA)[weight]
      {
        var index := FindBagIndexByWeight(parentBagsA, weight);
        OfferKeepsTally(ChildA(), bagCountPerWeight, weight, index);
        OfferStaysWithin(ChildA(), bagCountPerWeight, weight, index);
        InsertToChildBagsA(weight, index);
      }
    }

    /** The same inner loop for child B, searching parent B. */
    method TopUpChildB(weight: int)
      requires Valid() && weight in bagCountPerWeight
      modifies this
      ensures Valid()
      ensures ChildB() == TopUp(old(ChildB()), bagCountPerWeight, weight, IndexOfWeight(parentBagsB, weight))
      ensures ChildA() == old(ChildA())
      ensures parentBagsA == old(parentBagsA) && parentBagsB == old(parentBagsB)
    {
      var count := bagCountPerWeight[weight];
      ghost var topped := TopUp(ChildB(), bagCountPerWeight, weight, IndexOfWeight(parentBagsB, weight));
      ghost var other := ChildA();
      while !(weight in childBagCountPerWeightB) || childBagCountPerWeightB[weight] != count
        invariant Valid()
        invariant ChildA() == other
        invariant parentBagsA == old(parentBagsA) && parentBagsB == old(parentBagsB)
        invariant TopUp(ChildB(), bagCountPerWeight, weight, IndexOfWeight(parentBagsB, weight)) == topped
        decreases count - multiset(childBagsB)[weight]
      {
        var index := FindBagIndexByWeight(parentBagsB, weight);
        OfferKeepsTally(ChildB(), bagCountPerWeight, weight, index);
        OfferStaysWithin(ChildB(), bagCountPerWeight, weight, index);
        InsertToChildBagsB(weight, index);
      }
    }

    /** One pass of the weight loop of complete_child_bags_based_on_parents: the least weight left tops up both children. */
    method TopUpLeast(remaining: set<int>, ghost finalA: Child, ghost finalB: Child) returns (weight: int)
      requires Valid() && remaining != {} && remaining <= bagCountPerWeight.Keys
      requires Complete(ChildA(), bagCountPerWeight, parentBagsA, Ascending(remaining)) == finalA
      requires Complete(ChildB(), bagCountPerWeight, parentBagsB, Ascending(remaining)) == finalB
      modifies this
      ensures Valid() && weight in remaining
      ensures parentBagsA == old(parentBagsA) && parentBagsB == old(parentBagsB)
      ensures Complete(ChildA(), bagCountPerWeight, parentBagsA, Ascending(remaining - {weight})) == finalA
      ensures Complete(ChildB(), bagCountPerWeight, parentBagsB, Ascending(remaining - {weight})) == finalB
    {
      EmptyWithoutElements(remaining);
      weight :| weight in remaining && forall v :: v in remaining ==> weight <= v;
      CompleteLeastFirst(ChildA(), bagCountPerWeight, parentBagsA, remaining, weight);
      CompleteLeastFirst(ChildB(), bagCountPerWeight, parentBagsB, remaining, weight);
      TopUpChildA(weight);
      TopUpChildB(weight);
    }

    /**
     * complete_child_bags_based_on_parents: for every weight of the global
     * map, in ascending order, both children are topped up. Afterwards each
     * child is a reordering of the instance.
     */
    method CompleteChildBagsBasedOnParents()
      requires Valid()
      modifies this
      ensures Valid()
      ensures parentBagsA == old(parentBagsA) && parentBagsB == old(parentBagsB)
      ensures ChildA() == Complete(old(ChildA()), bagCountPerWeight, parentBagsA, Ascending(bagCountPerWeight.Keys))
      ensures ChildB() == Complete(old(ChildB()), bagCountPerWeight, parentBagsB, Ascending(bagCountPerWeight.Keys))
      ensures multiset(childBagsA) == multiset(instance) && multiset(childBagsB) == multiset(instance)
    {
      ghost var keys := Ascending(bagCountPerWeight.Keys);
      ghost var finalA := Complete(ChildA(), bagCountPerWeight, parentBagsA, keys);
      ghost var finalB := Complete(ChildB(), bagCountPerWeight, parentBagsB, keys);
      CompletionGivesInstance(ChildA(), parentBagsA, instance);
      CompletionGivesInstance(ChildB(), parentBagsB, instance);
      var remaining := bagCountPerWeight.Keys;
      while remaining != {}
        invariant Valid()
        invariant parentBagsA == old(parentBagsA) && parentBagsB == old(parentBagsB)
        invariant remaining <= bagCountPerWeight.Keys
        invariant Complete(ChildA(), bagCountPerWeight, parentBagsA, Ascending(remaining)) == finalA
        invariant Complete(ChildB(), bagCountPerWeight, parentBagsB, Ascending(remaining)) == finalB
        decreases remaining
      {
        var weight := TopUpLeast(remaining, finalA, finalB);
        remaining := remaining - {weight};
      }
    }

    /** compose_child_a */
    method ComposeChildA() returns (child: Solution)
      ensures fresh(child) && child.limit == BinWeightLimit && child.bags == childBagsA
    {
      child := new Solution(BinWeightLimit, childBagsA);
    }

    /** compose_child_b */
    method ComposeChildB() returns (child: Solution)
      ensures fresh(child) && child.limit == BinWeightLimit && child.bags == childBagsB
    {
      child := new Solution(BinWeightLimit, childBagsB);
    }

    /**
     * One round of the loop of cross_parents_into_striped_bags_children: at
     * odd i each child is offered its own parent's bag i, at even i the other
     * parent's, each at the end of the child.
     */
    method StripeBagRound(i: nat)
      requires Valid() && i < |parentBagsA| && i < |parentBagsB|
      requires parentBagsA[i] in bagCountPerWeight && parentBagsB[i] in bagCountPerWeight
      requires ChildA() == OfferFirst(NoBags, bagCountPerWeight, BagStripe(parentBagsA, parentBagsB, i), i)
      requires ChildB() == OfferFirst(NoBags, bagCountPerWeight, BagStripe(parentBagsB, parentBagsA, i), i)
      modifies this
      ensures Valid()
      ensures parentBagsA == old(parentBagsA) && parentBagsB == old(parentBagsB)
      ensures ChildA() == OfferFirst(NoBags, bagCountPerWeight, BagStripe(old(parentBagsA), old(parentBagsB), i + 1), i + 1)
      ensures ChildB() == OfferFirst(NoBags, bagCountPerWeight, BagStripe(old(parentBagsB), old(parentBagsA), i + 1), i + 1)
    {
      ghost var beforeA, beforeB := ChildA(), ChildB();
      if i % 2 == 1 {
        InsertToChildBagsA(parentBagsA[i], -1);
        InsertToChildBagsB(parentBagsB[i], -1);
      } else {
        InsertToChildBagsA(parentBagsB[i], -1);
        InsertToChildBagsB(parentBagsA[i], -1);
      }
      OfferBagRound(beforeA, ChildA(), bagCountPerWeight, parentBagsA, parentBagsB, i, if i % 2 == 1 then parentBagsA[i] else parentBagsB[i]);
      OfferBagRound(beforeB, ChildB(), bagCountPerWeight, parentBagsB, parentBagsA, i, if i % 2 == 1 then parentBagsB[i] else parentBagsA[i]);
    }

    /** The loop of cross_parents_into_striped_bags_children, over the positions of parent A. */
    method StripeBags()
      requires Valid() && ChildA() == NoBags && ChildB() == NoBags
      requires |parentBagsA| == |parentBagsB|
      requires forall k :: 0 <= k < |parentBagsA| ==> parentBagsA[k] in bagCountPerWeight
      requires forall k :: 0 <= k < |parentBagsB| ==> parentBagsB[k] in bagCountPerWeight
      modifies this
      ensures Valid()
      ensures parentBagsA == old(parentBagsA) && parentBagsB == old(parentBagsB)
      ensures ChildA() == OfferFirst(NoBags, bagCountPerWeight, BagStripe(old(parentBagsA), old(parentBagsB), |old(parentBagsA)|), |old(parentBagsA)|)
      ensures ChildB() == OfferFirst(NoBags, bagCountPerWeight, BagStripe(old(parentBagsB), old(parentBagsA), |old(parentBagsA)|), |old(parentBagsA)|)
    {
      ghost var a, b := parentBagsA, parentBagsB;
      var i := 0;
      while i < |parentBagsA|
        invariant 0 <= i <= |a|
        invariant Valid()
        invariant parentBagsA == a && parentBagsB == b
        invariant ChildA() == OfferFirst(NoBags, bagCountPerWeight, BagStripe(a, b, i), i)
        invariant ChildB() == OfferFirst(NoBags, bagCountPerWeight, BagStripe(b, a, i), i)
      {
        StripeBagRound(i);
        i := i + 1;
      }
    }

    /**
     * One round of the loop of cross_parents_into_striped_bins_children:
     * primary bin i goes to child A at odd i and to child B at even i, then
     * secondary bin i, when there is one, to the other child.
     */
    method StripeBinRound(primaryBins: seq<seq<int>>, secondaryBins: seq<seq<int>>, i: nat)
      requires Valid() && i < |primaryBins|
      requires forall j :: 0 <= j < |primaryBins[i]| ==> primaryBins[i][j] in bagCountPerWeight
      requires i < |secondaryBins| ==> forall j :: 0 <= j < |secondaryBins[i]| ==> secondaryBins[i][j] in bagCountPerWeight
      requires ChildA() == OfferFirst(NoBags, bagCountPerWeight, BinStripe(primaryBins, secondaryBins, i, true), |BinStripe(primaryBins, secondaryBins, i, true)|)
      requires ChildB() == OfferFirst(NoBags, bagCountPerWeight, BinStripe(primaryBins, secondaryBins, i, false), |BinStripe(primaryBins, secondaryBins, i, false)|)
      modifies this
      ensures Valid()
      ensures parentBagsA == old(parentBagsA) && parentBagsB == old(parentBagsB)
      ensures ChildA() == OfferFirst(NoBags, bagCountPerWeight, BinStripe(primaryBins, secondaryBins, i + 1, true), |BinStripe(primaryBins, secondaryBins, i + 1, true)|)
      ensures ChildB() == OfferFirst(NoBags, bagCountPerWeight, BinStripe(primaryBins, secondaryBins, i + 1, false), |BinStripe(primaryBins, secondaryBins, i + 1, false)|)
    {
      ghost var beforeA, beforeB := ChildA(), ChildB();
      var primaryBin := primaryBins[i];
      if i % 2 == 1 {
        InsertAllToChildBagsA(primaryBin);
      } else {
        InsertAllToChildBagsB(primaryBin);
      }
      ghost var midA, midB := ChildA(), ChildB();
      if i < |secondaryBins| {
        var secondaryBin := secondaryBins[i];
        if i % 2 == 1 {
          InsertAllToChildBagsB(secondaryBin);
        } else {
          InsertAllToChildBagsA(secondaryBin);
        }
      }
      OfferBinRound(beforeA, midA, ChildA(), bagCountPerWeight, primaryBins, secondaryBins, i, true,
        if i % 2 == 1 then primaryBins[i] else [], if i < |secondaryBins| && i % 2 != 1 then secondaryBins[i] else []);
      OfferBinRound(beforeB, midB, ChildB(), bagCountPerWeight, primaryBins, secondaryBins, i, false,
        if i % 2 != 1 then primaryBins[i] else [], if i < |secondaryBins| && i % 2 == 1 then secondaryBins[i] else []);
    }

    /** The loop of cross_parents_into_striped_bins_children, over the primary bins. */
    method StripeBins(primaryBins: seq<seq<int>>, secondaryBins: seq<seq<int>>)
      requires Valid() && ChildA() == NoBags && ChildB() == NoBags
      requires forall k, j :: 0 <= k < |primaryBins| && 0 <= j < |primaryBins[k]| ==> primaryBins[k][j] in bagCountPerWeight
      requires forall k, j :: 0 <= k < |secondaryBins| && 0 <= j < |secondaryBins[k]| ==> secondaryBins[k][j] in bagCountPerWeight
      modifies this
      ensures Valid()
      ensures parentBagsA == old(parentBagsA) && parentBagsB == old(parentBagsB)
      ensures ChildA() == OfferFirst(NoBags, bagCountPerWeight, BinStripe(primaryBins, secondaryBins, |primaryBins|, true), |BinStripe(primaryBins, secondaryBins, |primaryBins|, true)|)
      ensures ChildB() == OfferFirst(NoBags, bagCountPerWeight, BinStripe(primaryBins, secondaryBins, |primaryBins|, false), |BinStripe(primaryBins, secondaryBins, |primaryBins|, false)|)
    {
      var i := 0;
      while i < |primaryBins|
        invariant 0 <= i <= |primaryBins|
        invariant Valid()
        invariant parentBagsA == old(parentBagsA) && parentBagsB == old(parentBagsB)
        invariant ChildA() == OfferFirst(NoBags, bagCountPerWeight, BinStripe(primaryBins, secondaryBins, i, true), |BinStripe(primaryBins, secondaryBins, i, true)|)
        invariant ChildB() == OfferFirst(NoBags, bagCountPerWeight, BinStripe(primaryBins, secondaryBins, i, false), |BinStripe(primaryBins, secondaryBins, i, false)|)
      {
        StripeBinRound(primaryBins, secondaryBins, i);
        i := i + 1;
      }
    }

    /**
     * The ending both crossovers share: complete_child_bags_based_on_parents,
     * then compose_child_a and compose_child_b.
     */
    method CompleteAndCompose() returns (childA: Solution, childB: Solution)
      requires Valid()
      modifies this
      ensures fresh(childA) && fresh(childB)
      ensures childA.limit == BinWeightLimit && childB.limit == BinWeightLimit
      ensures parentBagsA == old(parentBagsA) && parentBagsB == old(parentBagsB)
      ensures childA.bags == Complete(old(ChildA()), bagCountPerWeight, parentBagsA, Ascending(bagCountPerWeight.Keys)).bags
      ensures childB.bags == Complete(old(ChildB()), bagCountPerWeight, parentBagsB, Ascending(bagCountPerWeight.Keys)).bags
    {
      CompleteChildBagsBasedOnParents();
      childA := ComposeChildA();
      childB := ComposeChildB();
    }
  }

  /**
   * cross_parents_into_striped_bags_children: at odd positions each child is
   * offered its own parent's bag, at even positions the other parent's;
   * then both children are completed.
   */
  method CrossParentsIntoStripedBagsChildren(parentA: Solution, parentB: Solution, bagCountPerWeight: map<int, int>, ghost instance: seq<int>)
    returns (childA: Solution, childB: Solution)
    requires bagCountPerWeight == CountMap(instance)
    requires multiset(parentA.bags) == multiset(instance) && multiset(parentB.bags) == multiset(instance)
    ensures fresh(childA) && fresh(childB)
    ensures childA.limit == BinWeightLimit && childB.limit == BinWeightLimit
    ensures |parentA.bags| == |parentB.bags|
    ensures childA.bags == StripedBagsChild(parentA.bags, parentB.bags, |parentA.bags|, instance)
    ensures childB.bags == StripedBagsChild(parentB.bags, parentA.bags, |parentA.bags|, instance)
  {
    assert |parentA.bags| == |multiset(instance)| == |parentB.bags|;
    var crossover := new Crossover(parentA, parentB, bagCountPerWeight, instance);
    InstanceBagsCounted(parentA.bags, instance);
    InstanceBagsCounted(parentB.bags, instance);
    crossover.StripeBags();
    ghost var offeredA, offeredB := crossover.ChildA(), crossover.ChildB();
    childA, childB := crossover.CompleteAndCompose();
    IsStripedBagsChild(parentA.bags, parentB.bags, |parentA.bags|, instance, bagCountPerWeight, offeredA, childA.bags);
    IsStripedBagsChild(parentB.bags, parentA.bags, |parentA.bags|, instance, bagCountPerWeight, offeredB, childB.bags);
  }

  /** The bins of both parents, the one with strictly more bins first (parent B's on a tie). */
  method PrimaryAndSecondaryBins(parentA: Solution, parentB: Solution) returns (primaryBins: seq<seq<int>>, secondaryBins: seq<seq<int>>)
    requires parentA.limit == BinWeightLimit && parentB.limit == BinWeightLimit
    ensures primaryBins == PrimaryBins(Bins(parentA.bags, BinWeightLimit), Bins(parentB.bags, BinWeightLimit))
    ensures secondaryBins == SecondaryBins(Bins(parentA.bags, BinWeightLimit), Bins(parentB.bags, BinWeightLimit))
  {
    var binsA := parentA.GetBins();
    var binsB := parentB.GetBins();
    var binsASize, binsBSize := |binsA|, |binsB|;
    primaryBins := if binsASize > binsBSize then binsA else binsB;
    secondaryBins := if binsASize <= binsBSize then binsA else binsB;
  }

  /** Every bag of the bins of reorderings of the instance has a count. */
  lemma StripedBinsCounted(bagsA: seq<int>, bagsB: seq<int>, instance: seq<int>, primary: seq<seq<int>>, secondary: seq<seq<int>>)
    requires multiset(bagsA) == multiset(instance) && multiset(bagsB) == multiset(instance)
    requires primary == PrimaryBins(Bins(bagsA, BinWeightLimit), Bins(bagsB, BinWeightLimit))
    requires secondary == SecondaryBins(Bins(bagsA, BinWeightLimit), Bins(bagsB, BinWeightLimit))
    ensures forall k, j :: 0 <= k < |primary| && 0 <= j < |primary[k]| ==> primary[k][j] in CountMap(instance)
    ensures forall k, j :: 0 <= k < |secondary| && 0 <= j < |secondary[k]| ==> secondary[k][j] in CountMap(instance)
  {
    BinsWithinInstance(bagsA, instance);
    BinsWithinInstance(bagsB, instance);
    BinBagsCounted(Bins(bagsA, BinWeightLimit), instance);
    BinBagsCounted(Bins(bagsB, BinWeightLimit), instance);
  }

  /**
   * The first half of cross_parents_into_striped_bins_children: the
   * Crossover is set up, the parent with strictly more bins is primary
   * (parent B on a tie), and the children are offered the bin stripes.
   */
  method StripeParentBins(parentA: Solution, parentB: Solution, bagCountPerWeight: map<int, int>, ghost instance: seq<int>)
    returns (crossover: Crossover, ghost primary: seq<seq<int>>, ghost secondary: seq<seq<int>>)
    requires parentA.limit == BinWeightLimit && parentB.limit == BinWeightLimit
    requires bagCountPerWeight == CountMap(instance)
    requires multiset(parentA.bags) == multiset(instance) && multiset(parentB.bags) == multiset(instance)
    ensures fresh(crossover) && crossover.Valid()
    ensures crossover.bagCountPerWeight == bagCountPerWeight && crossover.instance == instance
    ensures crossover.parentBagsA == parentA.bags && crossover.parentBagsB == parentB.bags
    ensures primary == PrimaryBins(Bins(parentA.bags, BinWeightLimit), Bins(parentB.bags, BinWeightLimit))
    ensures secondary == SecondaryBins(Bins(parentA.bags, BinWeightLimit), Bins(parentB.bags, BinWeightLimit))
    ensures crossover.ChildA() ==
      OfferFirst(NoBags, bagCountPerWeight, BinStripe(primary, secondary, |primary|, true), |BinStripe(primary, secondary, |primary|, true)|)
    ensures crossover.ChildB() ==
      OfferFirst(NoBags, bagCountPerWeight, BinStripe(primary, secondary, |primary|, false), |BinStripe(primary, secondary, |primary|, false)|)
  {
    crossover := new Crossover(parentA, parentB, bagCountPerWeight, instance);
    var primaryBins, secondaryBins := PrimaryAndSecondaryBins(parentA, parentB);
    primary, secondary := primaryBins, secondaryBins;
    StripedBinsCounted(parentA.bags, parentB.bags, instance, primaryBins, secondaryBins);
    crossover.StripeBins(primaryBins, secondaryBins);
  }

  /**
   * cross_parents_into_striped_bins_children: the children are offered the
   * bin stripes, primary bin i going to child A at odd i and to child B at
   * even i, secondary bin i, when there is one, to the other child; then both
   * children are completed.
   */
  method CrossParentsIntoStripedBinsChildren(parentA: Solution, parentB: Solution, bagCountPerWeight: map<int, int>, ghost instance: seq<int>)
    returns (childA: Solution, childB: Solution)
    requires parentA.limit == BinWeightLimit && parentB.limit == BinWeightLimit
    requires bagCountPerWeight == CountMap(instance)
    requires multiset(parentA.bags) == multiset(instance) && multiset(parentB.bags) == multiset(instance)
    ensures fresh(childA) && fresh(childB)
    ensures childA.limit == BinWeightLimit && childB.limit == BinWeightLimit
    ensures childA.bags == StripedBinsChild(parentA.bags, parentB.bags, true, instance)
    ensures childB.bags == StripedBinsChild(parentA.bags, parentB.bags, false, instance)
  {
    ghost var bagsA, bagsB := parentA.bags, parentB.bags;
    var crossover, primary, secondary := StripeParentBins(parentA, parentB, bagCountPerWeight, instance);
    ghost var offeredA, offeredB := crossover.ChildA(), crossover.ChildB();
    childA, childB := crossover.CompleteAndCompose();
    IsStripedBinsChild(bagsA, bagsB, true, instance, bagCountPerWeight, primary, secondary, offeredA, childA.bags);
    IsStripedBinsChild(bagsA, bagsB, false, instance, bagCountPerWeight, primary, secondary, offeredB, childB.bags);
  }
}
