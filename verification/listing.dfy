/** A Go map is walked in any order. An enumeration of its keys is one such order. */
module Listing {

  ghost predicate Enumerates<K(!new)>(order: seq<K>, keys: set<K>) {
    && (forall i, j :: 0 <= i < j < |order| ==> order[i] != order[j])
    && (forall k :: k in order <==> k in keys)
  }

  /** The values of `m` in the given order. */
  function Pick<K, V>(m: map<K, V>, order: seq<K>): (r: seq<V>)
    requires forall k :: k in order ==> k in m
    ensures |r| == |order| && forall i :: 0 <= i < |order| ==> r[i] == m[order[i]]
  {
    seq(|order|, i requires 0 <= i < |order| => m[order[i]])
  }

  lemma {:induction false} EnumerationSize<K(!new)>(order: seq<K>, keys: set<K>)
    requires Enumerates(order, keys)
    ensures |order| == |keys|
  {
    if order == [] {
      assert keys == {};
    } else {
      var last := order[|order| - 1];
      assert last in keys;
      var before := order[..|order| - 1];
      assert forall k :: k in order <==> k in before || k == last;
      EnumerationSize(before, keys - {last});
    }
  }

  /** `range` over a map with `append`: the values, each once, in the order the walk took. */
  method Values<K(!new,==), V>(m: map<K, V>) returns (out: seq<V>, ghost order: seq<K>)
    ensures Enumerates(order, m.Keys) && out == Pick(m, order)
  {
    out, order := [], [];
    var pending := m.Keys;
    while pending != {}
      invariant pending <= m.Keys && Enumerates(order, m.Keys - pending)
      invariant |out| == |order| && forall i :: 0 <= i < |order| ==> order[i] in m && out[i] == m[order[i]]
      decreases pending
    {
      var k :| k in pending;
      out, order := out + [m[k]], order + [k];
      pending := pending - {k};
    }
    assert m.Keys - pending == m.Keys;
  }
}
