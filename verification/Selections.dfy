/** Rows picked in some order, each once. */
module Selections {

  predicate Distinct<T(==)>(ids: seq<T>) { forall i, j | 0 <= i < j < |ids| :: ids[i] != ids[j] }

  lemma {:induction false} DistinctCount<T>(ids: seq<T>, all: set<T>)
    requires Distinct(ids) && forall x :: x in ids <==> x in all
    ensures |ids| == |all|
  {
    if ids == [] {
      assert all == {};
    } else {
      var n := |ids| - 1;
      assert forall x :: x in ids <==> x == ids[n] || x in ids[..n];
      DistinctCount(ids[..n], all - {ids[n]});
    }
  }

  function InsertedAt<T>(ids: seq<T>, id: T, k: nat): (r: seq<T>)
    requires k <= |ids|
    ensures |r| == |ids| + 1
    ensures forall i | 0 <= i < |r| :: r[i] == if i < k then ids[i] else if i == k then id else ids[i - 1]
  {
    ids[..k] + [id] + ids[k..]
  }

  lemma InsertedMembers<T>(ids: seq<T>, id: T, k: nat)
    requires k <= |ids|
    ensures forall x :: x in InsertedAt(ids, id, k) <==> x == id || x in ids
  {
    assert ids == ids[..k] + ids[k..];
  }

  lemma InsertedDistinct<T>(ids: seq<T>, id: T, k: nat)
    requires k <= |ids| && Distinct(ids) && id !in ids
    ensures Distinct(InsertedAt(ids, id, k))
  {
  }
}
