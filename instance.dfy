/**
 * The problem instance hard-coded by the hill-climbing and genetic-algorithm
 * programs: 22 garbage bags and bins of capacity 100.
 */
module Instance {
  import opened Packing

  const BinWeightLimit: int := 100

  const GarbageBags: seq<int> := [
    48, 30, 36, 19, 36, 27, 42, 42, 36, 24, 30,
    48, 30, 36, 19, 36, 27, 42, 42, 36, 24, 30
  ]

  /** garbage_bag_count */
  const GarbageBagCount: int := |GarbageBags|

  /** The bags of the instance, in the order they are listed. */
  predicate IsPermutationOfInstance(bags: seq<int>)
  {
    multiset(bags) == multiset(GarbageBags)
  }

  /**
   * No ordering of the instance fits in fewer than 8 bins (the bags weigh
   * 740 in all), and none needs more than one bin per bag.
   */
  lemma InstanceBinBounds(bags: seq<int>)
    requires IsPermutationOfInstance(bags)
    ensures 8 <= Count(bags, BinWeightLimit) <= GarbageBagCount
  {
    InstanceTotal();
    SumOfPermutation(bags, GarbageBags);
    assert |bags| == |multiset(bags)| == |GarbageBags|;
    InstanceWeightsFit();
    forall i | 0 <= i < |bags|
      ensures 1 <= bags[i] <= BinWeightLimit
    {
      assert bags[i] in multiset(GarbageBags);
      assert bags[i] in GarbageBags;
    }
    CountBounds(bags, BinWeightLimit);
  }

  /** The instance is the same eleven bags listed twice. */
  const HalfOfBags: seq<int> := [48, 30, 36, 19, 36, 27, 42, 42, 36, 24, 30]

  lemma PrefixSumStep(s: seq<int>, k: int)
    requires 1 <= k <= |s|
    ensures Sum(s[..k]) == Sum(s[..k - 1]) + s[k - 1]
  {
    assert s[..k][..k - 1] == s[..k - 1];
  }

  lemma InstanceTotal()
    ensures Sum(GarbageBags) == 740
  {
    var h := HalfOfBags;
    assert h[..0] == [];
    // running totals of the eleven bags
    assert Sum(h[..1]) == 48 by { PrefixSumStep(h, 1); }
    assert Sum(h[..2]) == 78 by { PrefixSumStep(h, 2); }
    assert Sum(h[..3]) == 114 by { PrefixSumStep(h, 3); }
    assert Sum(h[..4]) == 133 by { PrefixSumStep(h, 4); }
    assert Sum(h[..5]) == 169 by { PrefixSumStep(h, 5); }
    assert Sum(h[..6]) == 196 by { PrefixSumStep(h, 6); }
    assert Sum(h[..7]) == 238 by { PrefixSumStep(h, 7); }
    assert Sum(h[..8]) == 280 by { PrefixSumStep(h, 8); }
    assert Sum(h[..9]) == 316 by { PrefixSumStep(h, 9); }
    assert Sum(h[..10]) == 340 by { PrefixSumStep(h, 10); }
    assert Sum(h[..11]) == 370 by { PrefixSumStep(h, 11); }
    assert h[..11] == h;
    assert GarbageBags == h + h;
    SumAppend(h, h);
  }

  lemma InstanceWeightsFit()
    ensures forall x :: x in GarbageBags ==> 1 <= x <= BinWeightLimit
  {
  }
}
