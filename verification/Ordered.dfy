/** The keys of a dictionary in sorted order: the listing of a set of keys under any strict
    total order, and the sort that yields it. */
module Ordered {

  ghost predicate Orders<K(!new)>(less: (K, K) -> bool) {
    && (forall a :: !less(a, a))
    && (forall a, b :: less(a, b) || a == b || less(b, a))
    && (forall a, b, c :: less(a, b) && less(b, c) ==> less(a, c))
  }

  ghost predicate IsFirst<K>(less: (K, K) -> bool, k: K, keys: set<K>) {
    k in keys && forall k' :: k' in keys ==> k == k' || less(k, k')
  }

  lemma {:induction false} FirstExists<K(!new)>(less: (K, K) -> bool, keys: set<K>)
    requires Orders(less) && keys != {}
    ensures exists k :: IsFirst(less, k, keys)
  {
    var k :| k in keys;
    if keys == {k} {
      assert IsFirst(less, k, keys);
    } else {
      FirstExists(less, keys - {k});
      var k' :| IsFirst(less, k', keys - {k});
      var first := if less(k, k') then k else k';
      assert k == k' || less(k, k') || less(k', k);
      forall x | x in keys ensures first == x || less(first, x) {
        if x != k {
          assert x in keys - {k};
        }
      }
      assert IsFirst(less, first, keys);
    }
  }

  ghost function First<K(!new)>(less: (K, K) -> bool, keys: set<K>): (k: K)
    requires Orders(less) && keys != {}
    ensures IsFirst(less, k, keys)
  {
    FirstExists(less, keys);
    var k :| IsFirst(less, k, keys);
    k
  }

  /** The keys in order. */
  ghost function Listing<K(!new)>(less: (K, K) -> bool, keys: set<K>): seq<K>
    requires Orders(less)
  {
    if keys == {} then [] else [First(less, keys)] + Listing(less, keys - {First(less, keys)})
  }

  lemma {:induction false} ListingIsSorted<K(!new)>(less: (K, K) -> bool, keys: set<K>)
    requires Orders(less)
    ensures forall k :: k in Listing(less, keys) <==> k in keys
    ensures forall i, j :: 0 <= i < j < |Listing(less, keys)| ==> less(Listing(less, keys)[i], Listing(less, keys)[j])
  {
    if keys != {} {
      ListingIsSorted(less, keys - {First(less, keys)});
    }
  }

  /** Sorting the keys, first ones first. */
  method SortKeys<K(!new, ==)>(less: (K, K) -> bool, keys: set<K>) returns (out: seq<K>)
    requires Orders(less)
    ensures out == Listing(less, keys)
  {
    out := [];
    var rest := keys;
    while rest != {}
      invariant out + Listing(less, rest) == Listing(less, keys)
      decreases rest
    {
      var k := FirstOf(less, rest);
      out, rest := out + [k], rest - {k};
    }
  }

  method FirstOf<K(!new, ==)>(less: (K, K) -> bool, keys: set<K>) returns (k: K)
    requires Orders(less) && keys != {}
    ensures k == First(less, keys)
  {
    FirstExists(less, keys);
    k :| k in keys && forall k' :: k' in keys ==> k == k' || less(k, k');
  }
}
