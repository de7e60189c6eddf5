/**
 * The bookkeeping of the genetic algorithm's crossovers: a map from a bag
 * weight to a number of bags (GarbageBagCountPerWeightMap), the insertion
 * that refuses a bag once a child holds as many bags of its weight as the
 * instance (insert_available_bag_to_vec), and the completion that tops every
 * weight up to the instance's count (complete_child_bags_based_on_parents).
 */
module WeightCounts {
  import opened KeyOrder

  /** A read of a count map where a missing weight counts as zero. */
  function Lookup(m: map<int, int>, w: int): int
  {
    if w in m then m[w] else 0
  }

  /**
   * The map generate_bag_count_per_weight_map builds: every weight present
   * in the list, mapped to the number of bags of that weight.
   */
  function CountMap(s: seq<int>): (m: map<int, int>)
  {
    if s == [] then map[]
    else
      var m := CountMap(s[..|s| - 1]);
      var w := s[|s| - 1];
      m[w := Lookup(m, w) + 1]
  }

  /** The map counts the list: it holds exactly the list's weights, each with its number of bags. */
  ghost predicate Counts(m: map<int, int>, s: seq<int>)
  {
    forall w :: (w in m <==> w in multiset(s)) && (w in m ==> m[w] == multiset(s)[w])
  }

  /** The map generate_bag_count_per_weight_map builds counts the list. */
  lemma {:induction false} CountMapCounts(s: seq<int>)
    ensures Counts(CountMap(s), s)
    decreases |s|
  {
    if s != [] {
      var front := s[..|s| - 1];
      assert s == front + [s[|s| - 1]];
      CountMapCounts(front);
    }
  }

  /** A weight of the list has an entry in its count map, holding its number of bags. */
  lemma CountMapHolds(s: seq<int>, w: int)
    requires w in multiset(s)
    ensures w in CountMap(s) && CountMap(s)[w] == multiset(s)[w]
  {
    CountMapCounts(s);
  }

  /** Two bag lists have the same count map exactly when they hold the same bags. */
  lemma CountMapDeterminesBags(s: seq<int>, t: seq<int>)
    ensures CountMap(s) == CountMap(t) <==> multiset(s) == multiset(t)
  {
    CountMapCounts(s);
    CountMapCounts(t);
    var ms, mt := CountMap(s), CountMap(t);
    if ms == mt {
      forall w
        ensures multiset(s)[w] == multiset(t)[w]
      {
        if w in ms {
          assert ms[w] == mt[w];
        }
      }
      assert multiset(s) == multiset(t);
    }
    if multiset(s) == multiset(t) {
      assert forall w :: w in ms.Keys <==> w in mt.Keys;
      assert ms.Keys == mt.Keys;
      assert forall w :: w in ms ==> ms[w] == mt[w];
    }
  }

  /** Counting one more bag of the list. */
  lemma CountMapStep(s: seq<int>, i: int)
    requires 0 <= i < |s|
    ensures CountMap(s[..i + 1]) == CountMap(s[..i])[s[i] := Lookup(CountMap(s[..i]), s[i]) + 1]
  {
    assert s[..i + 1][..i] == s[..i];
  }

  /** generate_bag_count_per_weight_map: one pass over the bags. */
  method GenerateBagCountPerWeightMap(bags: seq<int>) returns (m: map<int, int>)
    ensures m == CountMap(bags)
  {
    m := map[];
    var i := 0;
    while i < |bags|
      invariant 0 <= i <= |bags|
      invariant m == CountMap(bags[..i])
    {
      var weight := bags[i];
      CountMapStep(bags, i);
      if weight in m {
        m := m[weight := m[weight] + 1];
      } else {
        m := m[weight := 1];
      }
      i := i + 1;
    }
    assert bags[..|bags|] == bags;
  }

  /**
   * Where the insertion puts a bag: before position `index`, or at the end
   * when the index is past the end or negative (a negative int compared
   * with an unsigned size is larger than any size).
   */
  function InsertAt(s: seq<int>, index: int, w: int): (r: seq<int>)
    ensures |r| == |s| + 1
    ensures multiset(r) == multiset(s) + multiset{w}
  {
    if index < 0 || index >= |s| then s + [w]
    else
      assert s == s[..index] + s[index..];
      s[..index] + [w] + s[index..]
  }

  /** A child under construction: its bags and its count map. */
  datatype Child = Child(bags: seq<int>, counts: map<int, int>)

  /** The child every Crossover starts with: no bags, no counts. */
  const NoBags: Child := Child([], map[])

  /** The count map is the child's own: no more, no fewer bags of any weight. */
  ghost predicate Tallied(c: Child)
  {
    Counts(c.counts, c.bags)
  }

  /** The child holds only weights of the instance, and no more of each than the instance does. */
  ghost predicate Fits(counts: map<int, int>, target: map<int, int>)
  {
    forall w :: w in counts ==> w in target && counts[w] <= target[w]
  }

  /**
   * insert_available_bag_to_vec on values: when the child already holds as
   * many bags of the weight as the instance, nothing happens; otherwise the
   * weight's count goes up by one and the bag is inserted at `index`.
   */
  function Offer(c: Child, target: map<int, int>, w: int, index: int): (r: Child)
  {
    if !Takes(c, target, w) then c
    else Child(InsertAt(c.bags, index, w), c.counts[w := Lookup(c.counts, w) + 1])
  }

  /** Whether insert_available_bag_to_vec takes the bag: the child holds fewer of its weight than the instance. */
  predicate Takes(c: Child, target: map<int, int>, w: int)
  {
    !(w in c.counts && c.counts[w] == Lookup(target, w))
  }

  /** A taken bag joins the child's bags and its count map follows; a refused one changes nothing. */
  lemma OfferKeepsTally(c: Child, target: map<int, int>, w: int, index: int)
    requires Tallied(c)
    ensures var r := Offer(c, target, w, index);
      && Tallied(r)
      && multiset(r.bags) == multiset(c.bags) + (if Takes(c, target, w) then multiset{w} else multiset{})
  {
    if Takes(c, target, w) {
      var r := Offer(c, target, w, index);
      forall v
        ensures (v in r.counts <==> v in multiset(r.bags)) && (v in r.counts ==> r.counts[v] == multiset(r.bags)[v])
      {
      }
    }
  }

  /**
   * An offered bag of the instance is taken exactly when the child holds
   * fewer bags of its weight than the instance, and the child never holds
   * more than the instance.
   */
  lemma OfferStaysWithin(c: Child, target: map<int, int>, w: int, index: int)
    requires Tallied(c) && Fits(c.counts, target) && w in target && target[w] >= 1
    ensures Takes(c, target, w) <==> multiset(c.bags)[w] < target[w]
    ensures Fits(Offer(c, target, w, index).counts, target)
  {
    assert Lookup(c.counts, w) == multiset(c.bags)[w];
  }

  /**
   * insert_available_bag_to_vec, with the bag list and the count map it
   * updates through references passed in and handed back.
   */
  method InsertAvailableBagToVec(bags: seq<int>, bagCountPerWeight: map<int, int>, target: map<int, int>, bag: int, targetIndex: int)
    returns (newBags: seq<int>, newCounts: map<int, int>)
    ensures Child(newBags, newCounts) == Offer(Child(bags, bagCountPerWeight), target, bag, targetIndex)
  {
    newBags, newCounts := bags, bagCountPerWeight;
    var weight := bag;
    if weight in newCounts && newCounts[weight] == Lookup(target, weight) {
      return;
    }
    if weight in newCounts {
      newCounts := newCounts[weight := newCounts[weight] + 1];
    } else {
      newCounts := newCounts[weight := 1];
    }
    if targetIndex < 0 || targetIndex >= |newBags| {
      newBags := newBags + [bag];
    } else {
      newBags := newBags[..targetIndex] + [bag] + newBags[targetIndex..];
    }
  }

  /**
   * The position find_bag_index_by_weight returns: the first position
   * holding the weight, or -1 when no bag has it.
   */
  function IndexOfWeight(bags: seq<int>, w: int): (index: int)
    ensures index == -1 <==> w !in bags
    ensures index != -1 ==> 0 <= index < |bags| && bags[index] == w
    ensures forall k :: 0 <= k < index ==> bags[k] != w
  {
    if bags == [] then -1
    else if bags[0] == w then 0
    else
      var k := IndexOfWeight(bags[1..], w);
      if k == -1 then -1 else k + 1
  }

  /** find_bag_index_by_weight: a linear search from the front. */
  method FindBagIndexByWeight(bags: seq<int>, targetWeight: int) returns (index: int)
    ensures index == IndexOfWeight(bags, targetWeight)
  {
    var i := 0;
    while i < |bags|
      invariant 0 <= i <= |bags|
      invariant forall k :: 0 <= k < i ==> bags[k] != targetWeight
    {
      if bags[i] == targetWeight {
        return i;
      }
      i := i + 1;
    }
    return -1;
  }

  /** Every weight a count map holds is held by at least one bag. */
  ghost predicate Positive(target: map<int, int>)
  {
    forall w :: w in target ==> target[w] >= 1
  }

  /** A count map built from a bag list holds no zero counts, and an empty child fits it. */
  lemma CountMapIsPositive(s: seq<int>)
    ensures Positive(CountMap(s))
    ensures Tallied(NoBags) && Fits(NoBags.counts, CountMap(s))
  {
    CountMapCounts(s);
  }

  /**
   * One inner while loop of complete_child_bags_based_on_parents: the bag
   * of weight w is offered at the same position until the child holds as
   * many of them as the instance.
   */
  function TopUp(c: Child, target: map<int, int>, w: int, index: int): (r: Child)
    requires Tallied(c) && Fits(c.counts, target) && w in target && target[w] >= 1
    ensures Tallied(r) && Fits(r.counts, target)
    ensures multiset(r.bags)[w] == target[w]
    ensures forall v :: v != w ==> multiset(r.bags)[v] == multiset(c.bags)[v]
    decreases target[w] - multiset(c.bags)[w]
  {
    OfferKeepsTally(c, target, w, index);
    OfferStaysWithin(c, target, w, index);
    if !Takes(c, target, w) then c
    else TopUp(Offer(c, target, w, index), target, w, index)
  }

  /**
   * complete_child_bags_based_on_parents for one child: the weights in the
   * given order, each topped up at the first position the parent holds it.
   */
  function Complete(c: Child, target: map<int, int>, parent: seq<int>, keys: seq<int>): (r: Child)
    requires Tallied(c) && Fits(c.counts, target) && Positive(target)
    requires forall w :: w in keys ==> w in target
    ensures Tallied(r) && Fits(r.counts, target)
    decreases |keys|
  {
    if keys == [] then c
    else Complete(TopUp(c, target, keys[0], IndexOfWeight(parent, keys[0])), target, parent, keys[1..])
  }

  /**
   * Completing over a set of weights in ascending order starts with the
   * least of them: that weight is topped up first, the rest follow.
   */
  lemma CompleteLeastFirst(c: Child, target: map<int, int>, parent: seq<int>, remaining: set<int>, weight: int)
    requires Tallied(c) && Fits(c.counts, target) && Positive(target)
    requires remaining <= target.Keys
    requires weight in remaining && forall v :: v in remaining ==> weight <= v
    ensures forall w :: w in Ascending(remaining) ==> w in target
    ensures forall w :: w in Ascending(remaining - {weight}) ==> w in target
    ensures Complete(c, target, parent, Ascending(remaining)) ==
      Complete(TopUp(c, target, weight, IndexOfWeight(parent, weight)), target, parent, Ascending(remaining - {weight}))
  {
    assert weight == Least(remaining);
    assert Ascending(remaining) == [weight] + Ascending(remaining - {weight});
  }

  /** The completion tops up every listed weight and leaves the others alone. */
  lemma {:induction false} CompleteFillsKeys(c: Child, target: map<int, int>, parent: seq<int>, keys: seq<int>)
    requires Tallied(c) && Fits(c.counts, target) && Positive(target)
    requires forall w :: w in keys ==> w in target
    ensures var r := Complete(c, target, parent, keys);
      && (forall v :: v in keys ==> multiset(r.bags)[v] == target[v])
      && (forall v :: v !in keys ==> multiset(r.bags)[v] == multiset(c.bags)[v])
    decreases |keys|
  {
    if keys != [] {
      var w := keys[0];
      var next := TopUp(c, target, w, IndexOfWeight(parent, w));
      CompleteFillsKeys(next, target, parent, keys[1..]);
      var r := Complete(c, target, parent, keys);
      assert r == Complete(next, target, parent, keys[1..]);
      forall v | v in keys
        ensures multiset(r.bags)[v] == target[v]
      {
        if v !in keys[1..] {
          assert v == w;
        }
      }
    }
  }

  /**
   * After the completion a child holds exactly the instance's bags, whatever
   * the striping left in it: it is a reordering of the instance.
   */
  lemma CompletionGivesInstance(c: Child, parent: seq<int>, instance: seq<int>)
    requires Tallied(c) && Fits(c.counts, CountMap(instance))
    ensures Positive(CountMap(instance))
    ensures multiset(Complete(c, CountMap(instance), parent, Ascending(CountMap(instance).Keys)).bags) == multiset(instance)
  {
    var target := CountMap(instance);
    var keys := Ascending(target.Keys);
    CountMapIsPositive(instance);
    var r := Complete(c, target, parent, keys);
    CompleteFillsKeys(c, target, parent, keys);
    CountMapCounts(instance);
    forall v
      ensures multiset(r.bags)[v] == multiset(instance)[v]
    {
      if v !in target {
        assert v !in c.counts;
      }
    }
    assert multiset(r.bags) == multiset(instance);
  }
}
