/**
 * The order in which a std::map visits its keys: ascending.
 */
module KeyOrder {

  /** A set without elements is the empty set. */
  lemma EmptyWithoutElements(s: set<int>)
    ensures (forall x :: x !in s) ==> s == {}
  {
    if forall x :: x !in s {
      assert forall x :: x in s <==> x in {};
    }
  }

  /** The smallest weight of a non-empty set. */
  ghost function Least(s: set<int>): (x: int)
    requires s != {}
    ensures x in s && forall y :: y in s ==> x <= y
    decreases s
  {
    EmptyWithoutElements(s);
    var z :| z in s;
    if s == {z} then z
    else
      var rest := s - {z};
      var m := Least(rest);
      assert forall y :: y in s ==> y == z || y in rest;
      if z < m then z else m
  }

  /** The keys in the order a range-for over a std::map visits them. */
  ghost function Ascending(keys: set<int>): (ks: seq<int>)
    ensures forall w :: w in ks <==> w in keys
    ensures forall i, j :: 0 <= i < j < |ks| ==> ks[i] < ks[j]
    decreases keys
  {
    if keys == {} then []
    else
      var w := Least(keys);
      [w] + Ascending(keys - {w})
  }
}
