// Walking the keys of a map: the source sorts them, or takes them as the map yields them.
module Orders {
  function KeySet(order: seq<string>): set<string> { set k | k in order }

  ghost predicate IsOrder(order: seq<string>, keys: set<string>) {
    KeySet(order) == keys && forall i, j | 0 <= i < j < |order| :: order[i] != order[j]
  }

  /** Some order of the keys; the source sorts them. */
  method Ordered(keys: set<string>) returns (order: seq<string>)
    ensures IsOrder(order, keys)
  {
    order := [];
    var todo := keys;
    while todo != {}
      invariant todo <= keys && KeySet(order) == keys - todo
      invariant forall i, j | 0 <= i < j < |order| :: order[i] != order[j]
      decreases |todo|
    {
      var k :| k in todo;
      assert KeySet(order + [k]) == KeySet(order) + {k};
      order, todo := order + [k], todo - {k};
    }
  }

  lemma WholeOrder(order: seq<string>, keys: set<string>)
    requires IsOrder(order, keys)
    ensures KeySet(order[..0]) == {} && KeySet(order[..|order|]) == keys
  {
    assert order[..|order|] == order;
  }

  lemma NextKey(order: seq<string>, i: nat)
    requires i < |order| && forall a, b | 0 <= a < b < |order| :: order[a] != order[b]
    ensures order[i] !in KeySet(order[..i]) && KeySet(order[..i + 1]) == KeySet(order[..i]) + {order[i]}
  {
    assert order[..i + 1] == order[..i] + [order[i]];
  }
}
