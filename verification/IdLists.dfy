/** Lists of distinct ids and the sets they stand for. */
module IdLists {

  ghost predicate Distinct(ids: seq<nat>) {
    forall i, j | 0 <= i < j < |ids| :: ids[i] != ids[j]
  }

  ghost function Elements(ids: seq<nat>): set<nat> {
    set id | id in ids
  }

  lemma ElementsNext(ids: seq<nat>, k: nat)
    requires k < |ids|
    ensures Elements(ids[..k + 1]) == Elements(ids[..k]) + {ids[k]}
  {
  }

  lemma {:induction false} ElementsCount(ids: seq<nat>)
    requires Distinct(ids)
    ensures |Elements(ids)| == |ids|
  {
    if ids != [] {
      var n := |ids| - 1;
      ElementsCount(ids[..n]);
      ElementsNext(ids, n);
      assert ids[..n + 1] == ids && ids[n] !in ids[..n];
    }
  }

  lemma DistinctConcat(a: seq<nat>, b: seq<nat>)
    requires Distinct(a) && Distinct(b) && forall x | x in a :: x !in b
    ensures Distinct(a + b)
  {
    forall i, j | 0 <= i < j < |a + b| ensures (a + b)[i] != (a + b)[j] {
      if i < |a| <= j { assert a[i] in a && b[j - |a|] in b; }
    }
  }

  lemma HeadIsIn(ids: seq<nat>)
    requires ids != []
    ensures exists id :: id in ids
  {
    assert ids[0] in ids;
  }

  /** The elements of a set, in some order. */
  method ListOf(ids: set<nat>) returns (list: seq<nat>)
    ensures Elements(list) == ids && |list| == |ids| && Distinct(list)
  {
    list := [];
    var rest := ids;
    while rest != {}
      invariant rest !! Elements(list) && rest + Elements(list) == ids
      invariant Distinct(list)
      decreases rest
    {
      var id :| id in rest;
      assert Elements(list + [id]) == Elements(list) + {id};
      assert id !in Elements(list);
      list := list + [id];
      rest := rest - {id};
    }
    ElementsCount(list);
  }
}
