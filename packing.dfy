/**
 * The greedy left-to-right bin scan that gives a garbage-bag ordering its
 * cost. A bag is modelled as its integer weight.
 *
 * Two scans are defined, as in the two versions of the Solution class:
 * CountScan keeps only the number of bins and the load of the last bin
 * (the counter of Solution.h), BinScan keeps the bins themselves
 * (get_bins of Solution.cpp). Both are defined on prefixes, one bag at a
 * time, exactly as the loops consume the bag list.
 */
module Packing {

  /** Total weight of a list of bags. */
  function Sum(s: seq<int>): int
  {
    if s == [] then 0 else Sum(s[..|s| - 1]) + s[|s| - 1]
  }

  /** All bins laid end to end. */
  function Flatten(bins: seq<seq<int>>): seq<int>
  {
    if bins == [] then [] else Flatten(bins[..|bins| - 1]) + bins[|bins| - 1]
  }

  /** The sum of the per-bin totals. */
  function BinTotals(bins: seq<seq<int>>): int
  {
    if bins == [] then 0 else BinTotals(bins[..|bins| - 1]) + Sum(bins[|bins| - 1])
  }

  /** State of the Solution.h counter: bins opened so far and the load of the last one. */
  datatype Tally = Tally(count: int, load: int)

  /** State of get_bins: the bins so far and the load of the last one. */
  datatype Packed = Packed(bins: seq<seq<int>>, load: int)

  /** The counter of Solution.h after scanning `bags`. */
  function CountScan(bags: seq<int>, limit: int): (t: Tally)
    ensures t.count >= 1
    ensures t.count <= |bags| + 1
  {
    if bags == [] then Tally(1, 0)
    else
      var t := CountScan(bags[..|bags| - 1], limit);
      var w := bags[|bags| - 1];
      if t.load + w > limit then Tally(t.count + 1, w) else Tally(t.count, t.load + w)
  }

  /** The bins of Solution.cpp's get_bins after scanning `bags`. */
  function BinScan(bags: seq<int>, limit: int): (p: Packed)
    ensures |p.bins| >= 1
  {
    if bags == [] then Packed([[]], 0)
    else
      var p := BinScan(bags[..|bags| - 1], limit);
      var w := bags[|bags| - 1];
      if p.load + w > limit then Packed(p.bins + [[w]], w)
      else Packed(p.bins[..|p.bins| - 1] + [p.bins[|p.bins| - 1] + [w]], p.load + w)
  }

  /** The filled-bin count, the cost every search minimises. */
  function Count(bags: seq<int>, limit: int): int
  {
    CountScan(bags, limit).count
  }

  /** The bins of an ordering. */
  function Bins(bags: seq<int>, limit: int): seq<seq<int>>
  {
    BinScan(bags, limit).bins
  }

  /** The direct counter and the bin list agree, step by step. */
  lemma {:induction false} ScansAgree(bags: seq<int>, limit: int)
    ensures CountScan(bags, limit).count == |BinScan(bags, limit).bins|
    ensures CountScan(bags, limit).load == BinScan(bags, limit).load
  {
    if bags != [] {
      ScansAgree(bags[..|bags| - 1], limit);
    }
  }

  lemma CountIsNumberOfBins(bags: seq<int>, limit: int)
    ensures Count(bags, limit) == |Bins(bags, limit)|
  {
    ScansAgree(bags, limit);
  }

  /** The carried load is the weight of the last bin. */
  lemma {:induction false} LoadIsLastBin(bags: seq<int>, limit: int)
    ensures var p := BinScan(bags, limit); p.load == Sum(p.bins[|p.bins| - 1])
  {
    if bags != [] {
      var q := BinScan(bags[..|bags| - 1], limit);
      LoadIsLastBin(bags[..|bags| - 1], limit);
      var w := bags[|bags| - 1];
      if q.load + w <= limit {
        var last := q.bins[|q.bins| - 1] + [w];
        assert last[..|last| - 1] == q.bins[|q.bins| - 1];
      } else {
        assert [w][..0] == [];
      }
    }
  }

  lemma FlattenAppend(bins: seq<seq<int>>, b: seq<int>)
    ensures Flatten(bins + [b]) == Flatten(bins) + b
  {
    assert (bins + [b])[..|bins|] == bins;
  }

  /** Adding a bag to the last bin adds it at the end of the concatenation. */
  lemma FlattenGrowLast(front: seq<seq<int>>, last: seq<int>, w: int)
    ensures Flatten(front + [last + [w]]) == Flatten(front + [last]) + [w]
  {
    FlattenAppend(front, last);
    FlattenAppend(front, last + [w]);
    assert Flatten(front) + (last + [w]) == Flatten(front) + last + [w];
  }

  /** Concatenating the bins in order gives back the bag list. */
  lemma {:induction false} BinsFlattenToBags(bags: seq<int>, limit: int)
    ensures Flatten(Bins(bags, limit)) == bags
  {
    if bags == [] {
      assert Flatten([[]]) == Flatten([]) + [];
    } else {
      var init := bags[..|bags| - 1];
      var w := bags[|bags| - 1];
      var q := BinScan(init, limit);
      BinsFlattenToBags(init, limit);
      if q.load + w > limit {
        FlattenAppend(q.bins, [w]);
      } else {
        var front, last := q.bins[..|q.bins| - 1], q.bins[|q.bins| - 1];
        assert q.bins == front + [last];
        FlattenGrowLast(front, last, w);
      }
      assert init + [w] == bags;
    }
  }

  /** Every bin but the first is non-empty. */
  lemma {:induction false} LaterBinsNonEmpty(bags: seq<int>, limit: int)
    ensures forall k :: 1 <= k < |Bins(bags, limit)| ==> Bins(bags, limit)[k] != []
  {
    if bags != [] {
      var init := bags[..|bags| - 1];
      var w := bags[|bags| - 1];
      LaterBinsNonEmpty(init, limit);
      var q := BinScan(init, limit);
      assert Bins(init, limit) == q.bins;
      var bins := Bins(bags, limit);
      forall k | 1 <= k < |bins|
        ensures bins[k] != []
      {
        if q.load + w > limit {
          if k < |q.bins| { assert bins[k] == q.bins[k]; } else { assert bins[k] == [w]; }
        } else if k < |q.bins| - 1 {
          assert bins[k] == q.bins[k];
        } else {
          assert bins[k] == q.bins[k] + [w];
        }
      }
    }
  }

  /** The first bin stays empty exactly when there is no bag or the first bag alone is too heavy. */
  lemma {:induction false} FirstBinEmpty(bags: seq<int>, limit: int)
    ensures Bins(bags, limit)[0] == [] <==> (bags == [] || bags[0] > limit)
  {
    if bags != [] {
      var init := bags[..|bags| - 1];
      FirstBinEmpty(init, limit);
      var q := BinScan(init, limit);
      if init == [] {
        assert q == Packed([[]], 0);
      } else {
        assert init[0] == bags[0];
        if q.load + bags[|bags| - 1] <= limit && |q.bins| == 1 {
          assert Bins(bags, limit)[0] == q.bins[0] + [bags[|bags| - 1]];
        }
      }
    }
  }

  /** When no single bag is over the limit, no bin is over the limit. */
  lemma {:induction false} BinsWithinLimit(bags: seq<int>, limit: int)
    requires forall i :: 0 <= i < |bags| ==> bags[i] <= limit
    requires limit >= 0
    ensures forall k :: 0 <= k < |Bins(bags, limit)| ==> Sum(Bins(bags, limit)[k]) <= limit
  {
    if bags != [] {
      var init := bags[..|bags| - 1];
      var w := bags[|bags| - 1];
      BinsWithinLimit(init, limit);
      LoadIsLastBin(init, limit);
      var q := BinScan(init, limit);
      assert Bins(init, limit) == q.bins;
      var bins := Bins(bags, limit);
      if q.load + w > limit {
        assert [w][..0] == [];
        assert Sum([w]) == w;
        forall k | 0 <= k < |bins|
          ensures Sum(bins[k]) <= limit
        {
          if k < |q.bins| { assert bins[k] == q.bins[k]; } else { assert bins[k] == [w]; }
        }
      } else {
        var last := q.bins[|q.bins| - 1] + [w];
        assert last[..|last| - 1] == q.bins[|q.bins| - 1];
        forall k | 0 <= k < |bins|
          ensures Sum(bins[k]) <= limit
        {
          if k < |q.bins| - 1 { assert bins[k] == q.bins[k]; } else { assert bins[k] == last; }
        }
      }
    }
  }

  /**
   * Greedy maximality: a bin was closed only because the first bag of the
   * next one did not fit.
   */
  lemma {:induction false} BinsAreMaximal(bags: seq<int>, limit: int)
    ensures var bins := Bins(bags, limit);
      forall k :: 1 <= k < |bins| ==> bins[k] != [] && Sum(bins[k - 1]) + bins[k][0] > limit
  {
    if bags != [] {
      var init := bags[..|bags| - 1];
      var w := bags[|bags| - 1];
      BinsAreMaximal(init, limit);
      LoadIsLastBin(init, limit);
      LaterBinsNonEmpty(init, limit);
      var q := BinScan(init, limit);
      assert Bins(init, limit) == q.bins;
      var bins := Bins(bags, limit);
      if q.load + w <= limit {
        forall k | 1 <= k < |bins|
          ensures bins[k] != [] && Sum(bins[k - 1]) + bins[k][0] > limit
        {
          if k == |bins| - 1 {
            var oldLast := q.bins[k];
            assert bins[k] == oldLast + [w];
            assert oldLast != [];
            assert bins[k][0] == oldLast[0];
          }
        }
      }
    }
  }

  lemma BinTotalsAppend(bins: seq<seq<int>>, b: seq<int>)
    ensures BinTotals(bins + [b]) == BinTotals(bins) + Sum(b)
  {
    assert (bins + [b])[..|bins|] == bins;
  }

  lemma {:induction false} SumAppend(a: seq<int>, b: seq<int>)
    ensures Sum(a + b) == Sum(a) + Sum(b)
  {
    if b != [] {
      SumAppend(a, b[..|b| - 1]);
      assert (a + b)[..|a + b| - 1] == a + b[..|b| - 1];
    } else {
      assert a + b == a;
    }
  }

  /** The weight is conserved: the bins carry exactly the weight of the bags. */
  lemma {:induction false} FlattenSum(bins: seq<seq<int>>)
    ensures Sum(Flatten(bins)) == BinTotals(bins)
  {
    if bins != [] {
      FlattenSum(bins[..|bins| - 1]);
      SumAppend(Flatten(bins[..|bins| - 1]), bins[|bins| - 1]);
    }
  }

  lemma {:induction false} BinTotalsBound(bins: seq<seq<int>>, limit: int)
    requires forall k :: 0 <= k < |bins| ==> Sum(bins[k]) <= limit
    ensures BinTotals(bins) <= |bins| * limit
  {
    if bins != [] {
      BinTotalsBound(bins[..|bins| - 1], limit);
      assert (|bins| - 1) * limit + limit == |bins| * limit;
    }
  }

  /**
   * With every bag weighing between 1 and the limit, a non-empty list needs
   * at most one bin per bag, and the bins can hold the total weight.
   */
  lemma CountBounds(bags: seq<int>, limit: int)
    requires forall i :: 0 <= i < |bags| ==> 1 <= bags[i] <= limit
    requires |bags| >= 1
    ensures Count(bags, limit) <= |bags|
    ensures Count(bags, limit) * limit >= Sum(bags)
  {
    var bins := Bins(bags, limit);
    CountIsNumberOfBins(bags, limit);
    BinsFlattenToBags(bags, limit);
    FirstBinEmpty(bags, limit);
    LaterBinsNonEmpty(bags, limit);
    NonEmptyBinsBound(bins);
    BinsWithinLimit(bags, limit);
    FlattenSum(bins);
    BinTotalsBound(bins, limit);
  }

  /** A list of non-empty bins holds at least one bag per bin. */
  lemma {:induction false} NonEmptyBinsBound(bins: seq<seq<int>>)
    requires forall k :: 0 <= k < |bins| ==> bins[k] != []
    ensures |Flatten(bins)| >= |bins|
  {
    if bins != [] {
      NonEmptyBinsBound(bins[..|bins| - 1]);
    }
  }

  /** Reordering the bags does not change their total weight. */
  lemma {:induction false} SumOfPermutation(a: seq<int>, b: seq<int>)
    requires multiset(a) == multiset(b)
    ensures Sum(a) == Sum(b)
    decreases |a|
  {
    if a != [] {
      var x := a[|a| - 1];
      assert x in multiset(b);
      var j :| 0 <= j < |b| && b[j] == x;
      var rest := b[..j] + b[j + 1..];
      assert b == b[..j] + [x] + b[j + 1..];
      assert multiset(b) == multiset(b[..j]) + multiset{x} + multiset(b[j + 1..]);
      assert multiset(rest) == multiset(b[..j]) + multiset(b[j + 1..]);
      assert a == a[..|a| - 1] + [x];
      assert multiset(a) == multiset(a[..|a| - 1]) + multiset{x};
      assert multiset(a[..|a| - 1]) == multiset(a) - multiset{x};
      assert multiset(rest) == multiset(b) - multiset{x};
      SumOfPermutation(a[..|a| - 1], rest);
      SumAppend(b[..j] + [x], b[j + 1..]);
      SumAppend(b[..j], [x]);
      SumAppend(b[..j], b[j + 1..]);
    } else {
      assert b == [];
    }
  }
}
