/** Small facts about Python lists and dict keys that several components share. */
module Lists {

  datatype Option<+T> = None | Some(value: T)

  predicate Distinct<T(==)>(s: seq<T>) {
    forall i, j :: 0 <= i < j < |s| ==> s[i] != s[j]
  }

  /** `list(dict.fromkeys(items))`: first occurrences, in order. */
  function Dedup<T(==)>(items: seq<T>): seq<T> {
    if items == [] then []
    else
      var rest := Dedup(items[..|items| - 1]);
      if items[|items| - 1] in rest then rest else rest + [items[|items| - 1]]
  }

  lemma {:induction false} DedupDistinct<T>(items: seq<T>)
    ensures Distinct(Dedup(items))
    ensures forall x :: x in Dedup(items) <==> x in items
  {
    if items != [] {
      var n := |items| - 1;
      DedupDistinct(items[..n]);
      assert items == items[..n] + [items[n]];
    }
  }

  lemma {:induction false} DistinctSize<T>(s: seq<T>)
    requires Distinct(s)
    ensures |set x | x in s| == |s|
  {
    if s != [] {
      var init := s[..|s| - 1];
      DistinctSize(init);
      assert s == init + [s[|s| - 1]];
      assert (set x | x in s) == (set x | x in init) + {s[|s| - 1]};
    }
  }

  /** Two duplicate-free lists with the same members are equally long. */
  lemma SameMembersSameLength<T>(s: seq<T>, t: seq<T>)
    requires Distinct(s) && Distinct(t)
    requires forall x :: x in s <==> x in t
    ensures |s| == |t|
  {
    DistinctSize(s);
    DistinctSize(t);
    assert (set x | x in s) == (set x | x in t);
  }

  /** `s[:k]` for k >= 0 */
  function Head<T>(s: seq<T>, k: nat): seq<T> {
    if k < |s| then s[..k] else s
  }
}
