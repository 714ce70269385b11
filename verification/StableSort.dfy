/** Python's `sorted(range(n), key=...)`: stable, so ties keep their original order. */
module StableSort {

  /** Index i sorts before index j. */
  predicate Before(keys: seq<real>, i: nat, j: nat) {
    i < |keys| && j < |keys| && (keys[i] < keys[j] || (keys[i] == keys[j] && i < j))
  }

  ghost predicate IsStableOrder(keys: seq<real>, ord: seq<nat>) {
    && |ord| == |keys|
    && (forall p :: 0 <= p < |ord| ==> ord[p] < |keys|)
    && (forall i: nat :: i < |keys| ==> i in ord)
    && (forall p, q :: 0 <= p < q < |ord| ==> Before(keys, ord[p], ord[q]))
  }

  function SortedIndices(keys: seq<real>): seq<nat> {
    InsertAll(keys, |keys|)
  }

  function InsertAll(keys: seq<real>, n: nat): seq<nat> {
    if n == 0 then [] else InsertIndex(keys, InsertAll(keys, n - 1), n - 1)
  }

  function InsertIndex(keys: seq<real>, ord: seq<nat>, i: nat): seq<nat> {
    if ord == [] || !Before(keys, i, ord[|ord| - 1]) then ord + [i]
    else InsertIndex(keys, ord[..|ord| - 1], i) + [ord[|ord| - 1]]
  }

  lemma {:induction false} InsertIndexCorrect(keys: seq<real>, ord: seq<nat>, i: nat)
    requires i < |keys| && i !in ord
    requires forall p :: 0 <= p < |ord| ==> ord[p] < |keys|
    requires forall p, q :: 0 <= p < q < |ord| ==> Before(keys, ord[p], ord[q])
    ensures var r := InsertIndex(keys, ord, i);
            && |r| == |ord| + 1
            && (forall x :: x in r <==> x in ord || x == i)
            && (forall p, q :: 0 <= p < q < |r| ==> Before(keys, r[p], r[q]))
  {
    if ord != [] {
      var init, l := ord[..|ord| - 1], ord[|ord| - 1];
      assert ord == init + [l];
      if Before(keys, i, l) {
        InsertIndexCorrect(keys, init, i);
        var r := InsertIndex(keys, init, i);
        forall p | 0 <= p < |r|
          ensures Before(keys, r[p], l)
        {
          assert r[p] in r;
        }
      }
    }
  }

  /** ord holds exactly the indices below n, in sorted order. */
  ghost predicate Sorts(keys: seq<real>, n: nat, ord: seq<nat>) {
    && |ord| == n
    && (forall i: nat :: i in ord <==> i < n)
    && (forall p, q :: 0 <= p < q < |ord| ==> Before(keys, ord[p], ord[q]))
  }

  lemma InsertNext(keys: seq<real>, n: nat, ord: seq<nat>)
    requires n < |keys| && Sorts(keys, n, ord)
    ensures Sorts(keys, n + 1, InsertIndex(keys, ord, n))
  {
    assert forall p :: 0 <= p < |ord| ==> ord[p] in ord;
    InsertIndexCorrect(keys, ord, n);
  }

  lemma {:induction false} InsertAllCorrect(keys: seq<real>, n: nat)
    requires n <= |keys|
    ensures Sorts(keys, n, InsertAll(keys, n))
  {
    if n > 0 {
      InsertAllCorrect(keys, n - 1);
      InsertNext(keys, n - 1, InsertAll(keys, n - 1));
    }
  }

  lemma SortedIndicesCorrect(keys: seq<real>)
    ensures IsStableOrder(keys, SortedIndices(keys))
  {
    InsertAllCorrect(keys, |keys|);
    forall p | 0 <= p < |keys|
      ensures SortedIndices(keys)[p] < |keys|
    {
      assert SortedIndices(keys)[p] in SortedIndices(keys);
    }
  }
}
