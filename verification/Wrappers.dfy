/** Optional and fallible values, and table listings in an order nobody promises. */
module Wrappers {

  datatype Option<+T> = None | Some(value: T)

  datatype Result<+T> = Success(value: T) | Failure

  ghost predicate Named<K, V>(k: K, xs: seq<(K, V)>) {
    exists i :: 0 <= i < |xs| && xs[i].0 == k
  }

  /** `xs` names every wanted key once, in some order, each with its row of `table`. */
  ghost predicate Lists<K(!new), V>(xs: seq<(K, V)>, table: map<K, V>, wanted: set<K>) {
    && (forall i :: 0 <= i < |xs| ==> xs[i].0 in wanted && xs[i].0 in table && xs[i].1 == table[xs[i].0])
    && (forall k :: k in wanted ==> Named(k, xs))
    && (forall i, j :: 0 <= i < j < |xs| ==> xs[i].0 != xs[j].0)
    && |xs| == |wanted|
  }

  lemma ListsOneMore<K(!new), V>(xs: seq<(K, V)>, table: map<K, V>, listed: set<K>, k: K)
    requires Lists(xs, table, listed) && k !in listed && k in table
    ensures Lists(xs + [(k, table[k])], table, listed + {k})
  {
    var ys := xs + [(k, table[k])];
    forall j | j in listed + {k} ensures Named(j, ys) {
      if j == k {
        assert ys[|xs|].0 == k;
      } else {
        assert Named(j, xs);
        var i :| 0 <= i < |xs| && xs[i].0 == j;
        assert ys[i].0 == j;
      }
    }
  }

  method ListRows<K(==,!new), V>(table: map<K, V>, wanted: set<K>) returns (xs: seq<(K, V)>)
    requires wanted <= table.Keys
    ensures Lists(xs, table, wanted)
  {
    xs := [];
    var rest := wanted;
    while rest != {}
      invariant rest <= wanted
      invariant Lists(xs, table, wanted - rest)
      decreases rest
    {
      var k :| k in rest;
      ListsOneMore(xs, table, wanted - rest, k);
      assert wanted - (rest - {k}) == wanted - rest + {k};
      xs := xs + [(k, table[k])];
      rest := rest - {k};
    }
    assert wanted - rest == wanted;
  }
}
