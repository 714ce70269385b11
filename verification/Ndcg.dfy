/** NDCG@K and MRR@K (src/click_rec/eval/_replay.py). The discount 1/log2(i+2) enters only as a
    positive, strictly decreasing function of the position. */
module Ndcg {
  import opened Lists
  import opened Arithmetic

  ghost predicate Discount(disc: nat -> real) {
    && (forall i :: disc(i) > 0.0)
    && (forall i, j :: i < j ==> disc(i) > disc(j))
  }

  /** Discounts exist: 1 / (i + 1) is one. */
  lemma DiscountExists() returns (disc: nat -> real)
    ensures Discount(disc)
  {
    disc := (i: nat) => Reciprocal(i as real + 1.0);
    forall i: nat, j: nat | i < j
      ensures disc(i) > disc(j)
    {
      ReciprocalsDecrease(i as real + 1.0, j as real + 1.0);
    }
    forall i: nat
      ensures disc(i) > 0.0
    {
      ReciprocalsDecrease(i as real + 1.0, i as real + 2.0);
    }
  }

  function Dcg(rels: seq<real>, disc: nat -> real): real {
    DcgTo(rels, |rels|, disc)
  }

  /** The first n terms of the sum. */
  function DcgTo(rels: seq<real>, n: nat, disc: nat -> real): real
    requires n <= |rels|
  {
    if n == 0 then 0.0 else DcgTo(rels, n - 1, disc) + rels[n - 1] * disc(n - 1)
  }

  /** `sorted(rels, reverse=True)` */
  function SortedDescending(rels: seq<real>): seq<real> {
    if rels == [] then []
    else Insert(SortedDescending(rels[..|rels| - 1]), rels[|rels| - 1])
  }

  function Insert(s: seq<real>, x: real): seq<real> {
    if s == [] || s[|s| - 1] >= x then s + [x]
    else Insert(s[..|s| - 1], x) + [s[|s| - 1]]
  }

  function NdcgAtK(rels: seq<real>, k: int, disc: nat -> real): real {
    if k <= 0 || rels == [] then 0.0
    else
      var actual := Dcg(Head(rels, k), disc);
      var ideal := Dcg(Head(SortedDescending(rels), k), disc);
      if ideal == 0.0 then 0.0 else actual / ideal
  }

  predicate Descending(s: seq<real>) {
    forall i, j :: 0 <= i < j < |s| ==> s[i] >= s[j]
  }

  predicate NonNegative(s: seq<real>) {
    forall i :: 0 <= i < |s| ==> s[i] >= 0.0
  }

  function Sum(s: seq<real>): real {
    if s == [] then 0.0 else Sum(s[..|s| - 1]) + s[|s| - 1]
  }

  // ---------------------------------------------------------------- the descending sort

  lemma {:induction false} InsertKeepsValues(s: seq<real>, x: real)
    ensures multiset(Insert(s, x)) == multiset(s) + multiset{x}
  {
    if s != [] && s[|s| - 1] < x {
      var init, l := s[..|s| - 1], s[|s| - 1];
      InsertKeepsValues(init, x);
      assert s == init + [l];
    }
  }

  lemma {:induction false} InsertCorrect(s: seq<real>, x: real)
    requires Descending(s)
    ensures Descending(Insert(s, x))
    ensures multiset(Insert(s, x)) == multiset(s) + multiset{x}
  {
    InsertKeepsValues(s, x);
    if s != [] && s[|s| - 1] < x {
      var init, l := s[..|s| - 1], s[|s| - 1];
      InsertCorrect(init, x);
      assert forall v :: v in init ==> v >= l;
      LeastLast(Insert(init, x), multiset(init) + multiset{x}, l);
    }
  }

  lemma LeastLast(t: seq<real>, values: multiset<real>, l: real)
    requires Descending(t) && multiset(t) == values
    requires forall v :: v in values ==> v >= l
    ensures Descending(t + [l])
  {
    forall i | 0 <= i < |t|
      ensures t[i] >= l
    {
      assert t[i] in multiset(t);
    }
  }

  lemma {:induction false} SortCorrect(rels: seq<real>)
    ensures Descending(SortedDescending(rels))
    ensures multiset(SortedDescending(rels)) == multiset(rels)
    ensures |SortedDescending(rels)| == |rels|
  {
    if rels != [] {
      SortCorrect(rels[..|rels| - 1]);
      InsertCorrect(SortedDescending(rels[..|rels| - 1]), rels[|rels| - 1]);
      assert rels == rels[..|rels| - 1] + [rels[|rels| - 1]];
    }
    assert |multiset(SortedDescending(rels))| == |SortedDescending(rels)|;
    assert |multiset(rels)| == |rels|;
  }

  // ---------------------------------------------------------------- prefix sums dominate

  function Without(s: seq<real>, i: nat): seq<real>
    requires i < |s|
  {
    s[..i] + s[i + 1..]
  }

  lemma WithoutMultiset(s: seq<real>, i: nat)
    requires i < |s|
    ensures multiset(s) == multiset(Without(s, i)) + multiset{s[i]}
  {
    assert s == s[..i] + [s[i]] + s[i + 1..];
  }

  lemma {:induction false} SumWithout(s: seq<real>, i: nat)
    requires i < |s|
    ensures Sum(s) == Sum(Without(s, i)) + s[i]
  {
    var rest, init := Without(s, i), s[..|s| - 1];
    if i == |s| - 1 {
      assert rest == init;
    } else {
      SumWithout(init, i);
      assert rest[..|rest| - 1] == Without(init, i);
    }
  }

  lemma Cancel(a: multiset<real>, b: multiset<real>, x: real)
    requires a + multiset{x} == b + multiset{x}
    ensures a == b
  {
    assert a == (a + multiset{x}) - multiset{x};
  }

  lemma CancelSub(a: multiset<real>, b: multiset<real>, x: real)
    requires a + multiset{x} <= b + multiset{x}
    ensures a <= b
  {
    forall v
      ensures a[v] <= b[v]
    {
      assert (a + multiset{x})[v] <= (b + multiset{x})[v];
    }
  }

  lemma {:induction false} SumOfMultiset(a: seq<real>, b: seq<real>)
    requires multiset(a) == multiset(b)
    ensures Sum(a) == Sum(b)
  {
    assert |multiset(a)| == |a| && |multiset(b)| == |b|;
    if a != [] {
      var n := |a| - 1;
      assert a[n] in multiset(b);
      var i :| 0 <= i < |b| && b[i] == a[n];
      WithoutMultiset(b, i);
      WithoutMultiset(a, n);
      assert Without(a, n) == a[..n];
      Cancel(multiset(a[..n]), multiset(Without(b, i)), a[n]);
      SumOfMultiset(a[..n], Without(b, i));
      SumWithout(b, i);
    } else {
      assert b == [];
    }
  }

  /** Among the values of a descending list, no choice of |a| of them sums to more than the first |a|. */
  lemma {:induction false} TopSumsMost(a: seq<real>, ys: seq<real>)
    requires Descending(ys) && multiset(a) <= multiset(ys)
    ensures |a| <= |ys| && Sum(a) <= SumTo(ys, |a|)
    decreases |ys|
  {
    ChoiceIsShorter(a, ys);
    if |a| < |ys| {
      var rest := OneValueLess(a, ys);
      TopSumsMost(rest, ys[..|ys| - 1]);
    }
  }

  /** Leave the least value out of the list, and out of the choice if it was chosen. */
  lemma OneValueLess(a: seq<real>, ys: seq<real>) returns (rest: seq<real>)
    requires Descending(ys) && multiset(a) <= multiset(ys) && |a| < |ys|
    ensures var init := ys[..|ys| - 1];
            && multiset(rest) <= multiset(init)
            && |rest| <= |init|
            && (Sum(rest) <= SumTo(init, |rest|) ==> Sum(a) <= SumTo(ys, |a|))
  {
    var n := |ys| - 1;
    var init, l := ys[..n], ys[n];
    assert ys == init + [l];
    if i :| 0 <= i < |a| && a[i] == l {
      rest := Without(a, i);
      DropLeast(a, i, init, l);
      if Sum(rest) <= SumTo(init, |rest|) {
        PutLeastBack(a, i, ys);
      }
    } else {
      rest := a;
      LeastNotChosen(a, init, l);
      SumToInit(ys, |a|);
    }
  }

  lemma ChoiceIsShorter(a: seq<real>, ys: seq<real>)
    requires multiset(a) <= multiset(ys)
    ensures |a| <= |ys|
    ensures |a| == |ys| ==> Sum(a) == SumTo(ys, |a|)
  {
    assert |multiset(a)| == |a| && |multiset(ys)| == |ys|;
    SizeOfSub(multiset(a), multiset(ys));
    if |a| == |ys| {
      EqualSize(multiset(a), multiset(ys));
      SumOfMultiset(a, ys);
      SumOfPrefix(ys, |ys|);
      assert ys[..|ys|] == ys;
    }
  }

  lemma PutLeastBack(a: seq<real>, i: nat, ys: seq<real>)
    requires Descending(ys) && i < |a| <= |ys| && a[i] == ys[|ys| - 1]
    requires Sum(Without(a, i)) <= SumTo(ys[..|ys| - 1], |a| - 1)
    ensures Sum(a) <= SumTo(ys, |a|)
  {
    SumWithout(a, i);
    SumToInit(ys, |a| - 1);
    assert ys[|a| - 1] >= a[i];
  }

  lemma DropLeast(a: seq<real>, i: nat, init: seq<real>, l: real)
    requires i < |a| && a[i] == l && multiset(a) <= multiset(init + [l])
    ensures multiset(Without(a, i)) <= multiset(init)
  {
    WithoutMultiset(a, i);
    assert multiset(init + [l]) == multiset(init) + multiset{l};
    CancelSub(multiset(Without(a, i)), multiset(init), l);
  }

  /** The sum of the first n values. */
  function SumTo(s: seq<real>, n: nat): real
    requires n <= |s|
  {
    if n == 0 then 0.0 else SumTo(s, n - 1) + s[n - 1]
  }

  lemma {:induction false} SumToInit(s: seq<real>, n: nat)
    requires n < |s|
    ensures SumTo(s[..|s| - 1], n) == SumTo(s, n)
  {
    if n > 0 {
      SumToInit(s, n - 1);
    }
  }

  lemma {:induction false} SumOfPrefix(s: seq<real>, n: nat)
    requires n <= |s|
    ensures Sum(s[..n]) == SumTo(s, n)
  {
    if n > 0 {
      SumOfPrefix(s, n - 1);
      assert s[..n][..n - 1] == s[..n - 1];
    }
  }

  lemma LeastNotChosen(a: seq<real>, init: seq<real>, l: real)
    requires multiset(a) <= multiset(init + [l]) && l !in a
    ensures multiset(a) <= multiset(init)
  {
    assert multiset(init + [l]) == multiset(init) + multiset{l};
    assert l !in multiset(a);
  }

  lemma SizeOfSub<T>(a: multiset<T>, b: multiset<T>)
    requires a <= b
    ensures |a| <= |b|
  {
    assert b == a + (b - a);
  }

  lemma EqualSize<T>(a: multiset<T>, b: multiset<T>)
    requires a <= b && |a| == |b|
    ensures a == b
  {
    assert b == a + (b - a);
  }

  /** Every prefix of any arrangement sums to at most the same prefix of the descending one. */
  lemma PrefixDominated(rels: seq<real>, i: nat)
    requires i <= |rels|
    ensures |SortedDescending(rels)| == |rels|
    ensures SumTo(rels, i) <= SumTo(SortedDescending(rels), i)
  {
    SortCorrect(rels);
    SumOfPrefix(rels, i);
    assert rels == rels[..i] + rels[i..];
    TopSumsMost(rels[..i], SortedDescending(rels));
  }

  // ---------------------------------------------------------------- from prefix sums to DCG

  ghost predicate Dominates(ys: seq<real>, xs: seq<real>, n: nat) {
    n <= |xs| && n <= |ys| && forall i :: 0 <= i <= n ==> SumTo(xs, i) <= SumTo(ys, i)
  }

  function Dot(ws: seq<real>, vs: seq<real>, n: nat): real
    requires n <= |ws| && n <= |vs|
  {
    if n == 0 then 0.0 else Dot(ws, vs, n - 1) + vs[n - 1] * ws[n - 1]
  }

  /** How far the discount drops behind each position; behind the last one of n, all the way. */
  ghost predicate AreDrops(ws: seq<real>, n: nat, disc: nat -> real) {
    forall j {:trigger ws[j]} :: 0 <= j < |ws| ==> ws[j] == disc(j) - if j == n - 1 then 0.0 else disc(j + 1)
  }

  predicate ArePrefixSums(sums: seq<real>, rels: seq<real>) {
    && |sums| <= |rels|
    && forall j {:trigger rels[j]} :: 0 <= j < |sums| ==> sums[j] == rels[j] + if j == 0 then 0.0 else sums[j - 1]
  }

  /** Summation by parts: DCG weights the prefix sums with the drops of the discount. */
  lemma DcgByParts(rels: seq<real>, ws: seq<real>, sums: seq<real>, disc: nat -> real)
    requires |ws| == |sums| && AreDrops(ws, |ws|, disc) && ArePrefixSums(sums, rels)
    ensures DcgTo(rels, |ws|, disc) == Dot(ws, sums, |ws|)
  {
    var n := |ws|;
    if n > 0 {
      PartsSoFar(rels, ws, sums, n - 1, disc);
      assert ws[n - 1] == disc(n - 1);
      assert sums[n - 1] == rels[n - 1] + if n == 1 then 0.0 else sums[n - 2];
      AddPart(rels, ws, sums, n, disc, if n == 1 then 0.0 else sums[n - 2], 0.0);
    }
  }

  lemma {:induction false} PartsSoFar(rels: seq<real>, ws: seq<real>, sums: seq<real>, i: nat, disc: nat -> real)
    requires i < |ws| == |sums| && AreDrops(ws, |ws|, disc) && ArePrefixSums(sums, rels)
    ensures DcgTo(rels, i, disc) == Dot(ws, sums, i) + if i == 0 then 0.0 else sums[i - 1] * disc(i)
  {
    if i > 0 {
      PartsSoFar(rels, ws, sums, i - 1, disc);
      AddPart(rels, ws, sums, i, disc, if i == 1 then 0.0 else sums[i - 2], disc(i));
    }
  }

  lemma AddPart(rels: seq<real>, ws: seq<real>, sums: seq<real>, i: nat, disc: nat -> real, prev: real, next: real)
    requires 0 < i <= |ws| == |sums| <= |rels|
    requires ws[i - 1] == disc(i - 1) - next && sums[i - 1] == rels[i - 1] + prev
    requires DcgTo(rels, i - 1, disc) == Dot(ws, sums, i - 1) + prev * disc(i - 1)
    ensures DcgTo(rels, i, disc) == Dot(ws, sums, i) + sums[i - 1] * next
  {
    MovePart(prev, rels[i - 1], sums[i - 1], disc(i - 1), next, ws[i - 1]);
  }

  lemma MovePart(sum: real, rel: real, sum': real, c: real, next: real, drop: real)
    requires sum' == rel + sum && drop == c - next
    ensures sum * c + rel * c == sum' * drop + sum' * next
  {
  }

  lemma {:induction false} DotMonotone(ws: seq<real>, a: seq<real>, b: seq<real>, n: nat)
    requires n <= |ws| && n <= |a| && n <= |b|
    requires forall i :: 0 <= i < n ==> ws[i] > 0.0 && a[i] <= b[i]
    ensures Dot(ws, a, n) <= Dot(ws, b, n)
    ensures Dot(ws, a, n) == Dot(ws, b, n) ==> forall i :: 0 <= i < n ==> a[i] == b[i]
  {
    if n > 0 {
      DotMonotone(ws, a, b, n - 1);
      ScaledOrder(a[n - 1], b[n - 1], ws[n - 1]);
    }
  }

  /** Larger prefix sums give at least the DCG, and the same DCG only to the same list. */
  lemma DominanceGivesDcg(xs: seq<real>, ys: seq<real>, n: nat, disc: nat -> real)
    requires Discount(disc) && Dominates(ys, xs, n)
    ensures DcgTo(xs, n, disc) <= DcgTo(ys, n, disc)
    ensures DcgTo(xs, n, disc) == DcgTo(ys, n, disc) ==> forall i :: 0 <= i < n ==> xs[i] == ys[i]
  {
    var ws := Drops(n, disc);
    var sx := PrefixSums(xs, n);
    var sy := PrefixSums(ys, n);
    DcgByParts(xs, ws, sx, disc);
    DcgByParts(ys, ws, sy, disc);
    DotMonotone(ws, sx, sy, n);
    if forall i :: 0 <= i < n ==> sx[i] == sy[i] {
      SameSumsSameValues(xs, ys, sx, sy);
    }
  }

  lemma Drops(n: nat, disc: nat -> real) returns (ws: seq<real>)
    requires Discount(disc)
    ensures |ws| == n && AreDrops(ws, n, disc) && forall j :: 0 <= j < n ==> ws[j] > 0.0
  {
    ws := [];
    for i := 0 to n
      invariant |ws| == i && AreDrops(ws, n, disc) && forall j :: 0 <= j < i ==> ws[j] > 0.0
    {
      ws := ws + [disc(i) - if i == n - 1 then 0.0 else disc(i + 1)];
    }
  }

  lemma PrefixSums(rels: seq<real>, n: nat) returns (sums: seq<real>)
    requires n <= |rels|
    ensures |sums| == n && ArePrefixSums(sums, rels) && forall j :: 0 <= j < n ==> sums[j] == SumTo(rels, j + 1)
  {
    sums := [];
    for i := 0 to n
      invariant |sums| == i && ArePrefixSums(sums, rels)
      invariant forall j :: 0 <= j < i ==> sums[j] == SumTo(rels, j + 1)
    {
      assert SumTo(rels, i + 1) == SumTo(rels, i) + rels[i];
      assert i > 0 ==> sums[i - 1] == SumTo(rels, i);
      sums := sums + [SumTo(rels, i + 1)];
    }
  }

  lemma SameSumsSameValues(xs: seq<real>, ys: seq<real>, sx: seq<real>, sy: seq<real>)
    requires |sx| == |sy| && ArePrefixSums(sx, xs) && ArePrefixSums(sy, ys)
    requires forall i :: 0 <= i < |sx| ==> sx[i] == sy[i]
    ensures forall i :: 0 <= i < |sx| ==> xs[i] == ys[i]
  {
    forall i | 0 <= i < |sx|
      ensures xs[i] == ys[i]
    {
      assert sx[i] == xs[i] + if i == 0 then 0.0 else sx[i - 1];
      assert sy[i] == ys[i] + if i == 0 then 0.0 else sy[i - 1];
    }
  }

  lemma {:induction false} DcgNonNegative(rels: seq<real>, n: nat, disc: nat -> real)
    requires Discount(disc) && NonNegative(rels) && n <= |rels|
    ensures DcgTo(rels, n, disc) >= 0.0
    ensures DcgTo(rels, n, disc) == 0.0 <==> forall i :: 0 <= i < n ==> rels[i] == 0.0
  {
    if n > 0 {
      DcgNonNegative(rels, n - 1, disc);
      SignOfProduct(rels[n - 1], disc(n - 1));
    }
  }

  lemma {:induction false} DcgOfHead(rels: seq<real>, k: nat, n: nat, disc: nat -> real)
    requires n <= |Head(rels, k)|
    ensures DcgTo(Head(rels, k), n, disc) == DcgTo(rels, n, disc)
  {
    if n > 0 {
      DcgOfHead(rels, k, n - 1, disc);
    }
  }

  // ---------------------------------------------------------------- the metric

  /** The truncated DCG of any order is at most that of the descending order, with equality only
      when the first k values already are the descending ones. */
  lemma IdealIsMaximal(rels: seq<real>, k: nat, disc: nat -> real)
    requires Discount(disc)
    ensures var sorted := SortedDescending(rels);
            && Dcg(Head(rels, k), disc) <= Dcg(Head(sorted, k), disc)
            && (Dcg(Head(rels, k), disc) == Dcg(Head(sorted, k), disc) <==> Head(rels, k) == Head(sorted, k))
  {
    var sorted := SortedDescending(rels);
    var n := |Head(rels, k)|;
    SortCorrect(rels);
    forall i | 0 <= i <= n
      ensures SumTo(rels, i) <= SumTo(sorted, i)
    {
      PrefixDominated(rels, i);
    }
    DominanceGivesDcg(rels, sorted, n, disc);
    DcgOfHead(rels, k, n, disc);
    DcgOfHead(sorted, k, n, disc);
    if DcgTo(rels, n, disc) == DcgTo(sorted, n, disc) {
      assert rels[..n] == sorted[..n];
    }
  }

  /** NDCG@K lies in [0, 1]. */
  lemma NdcgInUnitInterval(rels: seq<real>, k: int, disc: nat -> real)
    requires Discount(disc) && NonNegative(rels)
    ensures 0.0 <= NdcgAtK(rels, k, disc) <= 1.0
  {
    if k > 0 && rels != [] {
      var ideal := Dcg(Head(SortedDescending(rels), k), disc);
      IdealIsMaximal(rels, k, disc);
      DcgNonNegative(Head(rels, k), |Head(rels, k)|, disc);
      if ideal != 0.0 {
        Quotient(Dcg(Head(rels, k), disc), ideal);
      }
    }
  }

  /** NDCG@K is 1 exactly when some relevance is positive and the first k values are the k largest in
      descending order. */
  lemma NdcgIsOneIff(rels: seq<real>, k: int, disc: nat -> real)
    requires Discount(disc) && NonNegative(rels)
    ensures NdcgAtK(rels, k, disc) == 1.0 <==>
            k > 0 && (exists i :: 0 <= i < |rels| && rels[i] > 0.0) && Head(rels, k) == Head(SortedDescending(rels), k)
  {
    if k > 0 && rels != [] {
      var sorted := SortedDescending(rels);
      var ideal := Dcg(Head(sorted, k), disc);
      IdealIsMaximal(rels, k, disc);
      DcgNonNegative(Head(rels, k), |Head(rels, k)|, disc);
      SortedKeepsSigns(rels);
      DcgNonNegative(Head(sorted, k), |Head(sorted, k)|, disc);
      if ideal != 0.0 {
        Quotient(Dcg(Head(rels, k), disc), ideal);
        var i :| 0 <= i < |Head(sorted, k)| && Head(sorted, k)[i] != 0.0;
        assert sorted[0] >= sorted[i] > 0.0;
      } else {
        assert Head(sorted, k)[0] == 0.0;
      }
    }
  }

  lemma SortedKeepsSigns(rels: seq<real>)
    requires NonNegative(rels)
    ensures NonNegative(SortedDescending(rels)) && |SortedDescending(rels)| == |rels|
    ensures Descending(SortedDescending(rels))
    ensures rels != [] ==> (SortedDescending(rels)[0] > 0.0 <==> exists i :: 0 <= i < |rels| && rels[i] > 0.0)
  {
    var sorted := SortedDescending(rels);
    SortCorrect(rels);
    forall i | 0 <= i < |sorted|
      ensures sorted[i] >= 0.0
    {
      assert sorted[i] in multiset(rels);
    }
    if rels != [] {
      if sorted[0] > 0.0 {
        assert sorted[0] in multiset(rels);
        var i :| 0 <= i < |rels| && rels[i] == sorted[0];
        assert rels[i] > 0.0;
      }
      if i :| 0 <= i < |rels| && rels[i] > 0.0 {
        assert rels[i] in multiset(sorted);
        var j :| 0 <= j < |sorted| && sorted[j] == rels[i];
        assert sorted[0] >= sorted[j];
      }
    }
  }

  /** A list that is already descending, and not all zero, scores 1 at every cutoff. */
  lemma DescendingScoresOne(rels: seq<real>, k: int, disc: nat -> real)
    requires Discount(disc) && NonNegative(rels) && Descending(rels)
    requires k > 0 && exists i :: 0 <= i < |rels| && rels[i] > 0.0
    ensures NdcgAtK(rels, k, disc) == 1.0
  {
    SortOfDescending(rels);
    NdcgIsOneIff(rels, k, disc);
  }

  lemma {:induction false} SortOfDescending(rels: seq<real>)
    requires Descending(rels)
    ensures SortedDescending(rels) == rels
  {
    if rels != [] {
      SortOfDescending(rels[..|rels| - 1]);
    }
  }

  // ---------------------------------------------------------------- the value for every order

  /** Descending lists of the same values are the same list. */
  lemma {:induction false} DescendingUnique(s: seq<real>, t: seq<real>)
    requires Descending(s) && Descending(t) && multiset(s) == multiset(t)
    ensures s == t
    decreases |s|
  {
    if s == [] {
      assert |multiset(t)| == |t|;
    } else {
      LeastIsLast(s, t);
      LeastIsLast(t, s);
      SameValuesBeforeLast(s, t);
      DescendingUnique(s[..|s| - 1], t[..|t| - 1]);
    }
  }

  lemma SameValuesBeforeLast(s: seq<real>, t: seq<real>)
    requires s != [] && t != [] && multiset(s) == multiset(t) && s[|s| - 1] == t[|t| - 1]
    ensures multiset(s[..|s| - 1]) == multiset(t[..|t| - 1])
  {
    var a, b, x := s[..|s| - 1], t[..|t| - 1], s[|s| - 1];
    assert s == a + [x] && t == b + [x];
    CancelSub(multiset(a), multiset(b), x);
    CancelSub(multiset(b), multiset(a), x);
  }

  lemma LeastIsLast(s: seq<real>, t: seq<real>)
    requires Descending(s) && s != [] && t != [] && multiset(s) == multiset(t)
    ensures s[|s| - 1] <= t[|t| - 1]
  {
    assert t[|t| - 1] in multiset(s);
  }

  lemma SortOfSameValues(a: seq<real>, b: seq<real>)
    requires multiset(a) == multiset(b)
    ensures SortedDescending(a) == SortedDescending(b) && |a| == |b|
  {
    SortCorrect(a);
    SortCorrect(b);
    DescendingUnique(SortedDescending(a), SortedDescending(b));
  }

  /** NDCG@K is the DCG of the list measured in that of its best order. */
  lemma NdcgTimesIdeal(rels: seq<real>, k: nat, disc: nat -> real)
    requires Discount(disc) && NonNegative(rels)
    ensures NdcgAtK(rels, k, disc) * Dcg(Head(SortedDescending(rels), k), disc) == Dcg(Head(rels, k), disc)
  {
    DcgWithinIdeal(rels, k, disc);
    NdcgIsRatio(rels, k, disc, Dcg(Head(rels, k), disc), Dcg(Head(SortedDescending(rels), k), disc));
  }

  lemma NdcgIsRatio(rels: seq<real>, k: nat, disc: nat -> real, actual: real, ideal: real)
    requires actual == Dcg(Head(rels, k), disc) && ideal == Dcg(Head(SortedDescending(rels), k), disc)
    requires 0.0 <= actual <= ideal
    ensures NdcgAtK(rels, k, disc) * ideal == actual
  {
    if k == 0 || rels == [] {
      assert ideal == 0.0;
    } else {
      RatioTimes(actual, ideal, NdcgAtK(rels, k, disc));
    }
  }

  lemma DcgWithinIdeal(rels: seq<real>, k: nat, disc: nat -> real)
    requires Discount(disc) && NonNegative(rels)
    ensures 0.0 <= Dcg(Head(rels, k), disc) <= Dcg(Head(SortedDescending(rels), k), disc)
  {
    IdealIsMaximal(rels, k, disc);
    DcgNonNegative(Head(rels, k), |Head(rels, k)|, disc);
  }

  lemma RatioTimes(actual: real, ideal: real, ratio: real)
    requires 0.0 <= actual <= ideal && ratio == if ideal == 0.0 then 0.0 else actual / ideal
    ensures ratio * ideal == actual
  {
    if ideal != 0.0 {
      Quotient(actual, ideal);
    }
  }

  /** Two orders of the same values score in proportion to their DCGs da and db, so that knowing one knows the
      other. */
  lemma NdcgComparesDcg(a: seq<real>, b: seq<real>, k: nat, disc: nat -> real, da: real, db: real)
    requires Discount(disc) && NonNegative(a) && NonNegative(b) && multiset(a) == multiset(b)
    requires da == Dcg(Head(a, k), disc) && db == Dcg(Head(b, k), disc)
    ensures NdcgAtK(a, k, disc) * db == NdcgAtK(b, k, disc) * da
  {
    SortOfSameValues(a, b);
    DcgWithinIdeal(a, k, disc);
    DcgWithinIdeal(b, k, disc);
    SharedIdeal(a, b, k, disc, Dcg(Head(SortedDescending(a), k), disc), da, db);
  }

  lemma SharedIdeal(a: seq<real>, b: seq<real>, k: nat, disc: nat -> real, ideal: real, da: real, db: real)
    requires ideal == Dcg(Head(SortedDescending(a), k), disc) == Dcg(Head(SortedDescending(b), k), disc)
    requires 0.0 <= da <= ideal && 0.0 <= db <= ideal
    requires da == Dcg(Head(a, k), disc) && db == Dcg(Head(b, k), disc)
    ensures NdcgAtK(a, k, disc) * db == NdcgAtK(b, k, disc) * da
  {
    CrossProduct(da, db, ideal, NdcgAtK(a, k, disc), NdcgAtK(b, k, disc));
  }

  lemma CrossProduct(da: real, db: real, ideal: real, x: real, y: real)
    requires 0.0 <= da <= ideal && 0.0 <= db <= ideal
    requires x == (if ideal == 0.0 then 0.0 else da / ideal) && y == if ideal == 0.0 then 0.0 else db / ideal
    ensures x * db == y * da
  {
    RatioTimes(da, ideal, x);
    RatioTimes(db, ideal, y);
    assert x * (y * ideal) == y * (x * ideal);
  }

  /** Replacing one value changes the DCG by the difference, discounted. */
  lemma {:induction false} DcgOfUpdate(s: seq<real>, p: nat, x: real, n: nat, disc: nat -> real)
    requires p < |s| && n <= |s|
    ensures DcgTo(s[p := x], n, disc) == DcgTo(s, n, disc) + if p < n then (x - s[p]) * disc(p) else 0.0
  {
    if n > 0 {
      DcgOfUpdate(s, p, x, n - 1, disc);
    }
  }

  function Swapped(rels: seq<real>, p: nat, q: nat): seq<real>
    requires p < |rels| && q < |rels|
  {
    rels[p := rels[q]][q := rels[p]]
  }

  lemma SwapKeepsValues(rels: seq<real>, p: nat, q: nat)
    requires p < |rels| && q < |rels|
    ensures multiset(Swapped(rels, p, q)) == multiset(rels)
    ensures NonNegative(rels) ==> NonNegative(Swapped(rels, p, q))
  {
  }

  /** Swapping a larger value forward, out of the first n or within them, adds to the DCG. */
  lemma DcgOfSwap(rels: seq<real>, p: nat, q: nat, n: nat, disc: nat -> real)
    requires Discount(disc) && p < q < |rels| && p < n <= |rels| && rels[p] < rels[q]
    ensures DcgTo(Swapped(rels, p, q), n, disc) > DcgTo(rels, n, disc)
  {
    var gain := rels[q] - rels[p];
    DcgOfUpdate(rels, p, rels[q], n, disc);
    DcgOfUpdate(rels[p := rels[q]], q, rels[p], n, disc);
    PositiveProduct(gain, disc(p));
    PositiveProduct(gain, disc(p) - disc(q));
    assert (rels[p] - rels[q]) * disc(q) == -(gain * disc(q));
  }

  lemma PositiveProduct(x: real, y: real)
    requires x > 0.0 && y > 0.0
    ensures x * y > 0.0
  {
  }

  /** Moving a larger value forward to a position within the first k, in exchange for a smaller one, strictly
      raises the score. */
  lemma SwapRaisesNdcg(rels: seq<real>, p: nat, q: nat, k: nat, disc: nat -> real)
    requires Discount(disc) && NonNegative(rels) && p < q < |rels| && p < k && rels[p] < rels[q]
    ensures NdcgAtK(Swapped(rels, p, q), k, disc) > NdcgAtK(rels, k, disc)
  {
    var next := Swapped(rels, p, q);
    SwapRaisesDcg(rels, p, q, k, disc);
    HigherDcgScoresHigher(rels, next, k, disc);
  }

  lemma SwapRaisesDcg(rels: seq<real>, p: nat, q: nat, k: nat, disc: nat -> real)
    requires Discount(disc) && NonNegative(rels) && p < q < |rels| && p < k && rels[p] < rels[q]
    ensures Dcg(Head(Swapped(rels, p, q), k), disc) > Dcg(Head(rels, k), disc)
    ensures multiset(Swapped(rels, p, q)) == multiset(rels) && NonNegative(Swapped(rels, p, q))
  {
    var n := |Head(rels, k)|;
    SwapKeepsValues(rels, p, q);
    DcgOfHead(rels, k, n, disc);
    DcgOfHead(Swapped(rels, p, q), k, n, disc);
    DcgOfSwap(rels, p, q, n, disc);
  }

  /** Of two orders of the same values, the one with the higher DCG scores higher. */
  lemma HigherDcgScoresHigher(a: seq<real>, b: seq<real>, k: nat, disc: nat -> real)
    requires Discount(disc) && NonNegative(a) && NonNegative(b) && multiset(a) == multiset(b)
    requires Dcg(Head(a, k), disc) < Dcg(Head(b, k), disc)
    ensures NdcgAtK(a, k, disc) < NdcgAtK(b, k, disc)
  {
    NdcgTimesIdeal(a, k, disc);
    NdcgTimesIdeal(b, k, disc);
    SortOfSameValues(a, b);
    DcgWithinIdeal(a, k, disc);
    DcgWithinIdeal(b, k, disc);
    GreaterFactor(NdcgAtK(b, k, disc), NdcgAtK(a, k, disc), Dcg(Head(SortedDescending(a), k), disc),
                  Dcg(Head(b, k), disc), Dcg(Head(a, k), disc));
  }

  lemma GreaterFactor(x: real, y: real, z: real, xz: real, yz: real)
    requires x * z == xz && y * z == yz && xz > yz && z > 0.0
    ensures x > y
  {
    SignOfProduct(y - x, z);
    assert (y - x) * z == y * z - x * z;
  }

  /** One relevant item of value v at position p, the others worth nothing. */
  predicate OnlyRelevant(rels: seq<real>, p: nat, v: real) {
    && p < |rels| && rels[p] == v > 0.0
    && forall i :: 0 <= i < |rels| && i != p ==> rels[i] == 0.0
  }

  lemma {:induction false} DcgOfOne(rels: seq<real>, p: nat, v: real, n: nat, disc: nat -> real)
    requires OnlyRelevant(rels, p, v) && n <= |rels|
    ensures DcgTo(rels, n, disc) == if p < n then v * disc(p) else 0.0
  {
    if n > 0 {
      DcgOfOne(rels, p, v, n - 1, disc);
    }
  }

  /** A single relevant item scores the discount of its position over that of the first, and nothing from
      position k on. */
  lemma OneRelevantScores(rels: seq<real>, p: nat, v: real, k: nat, disc: nat -> real)
    requires Discount(disc) && OnlyRelevant(rels, p, v)
    ensures NdcgAtK(rels, k, disc) == (if p < k then disc(p) else 0.0) / disc(0)
  {
    var b := if p < k then disc(p) else 0.0;
    if k > 0 {
      FirstIsBest(rels, p, v);
      OneInHead(rels, p, v, k, disc, b);
      OneInHead(SortedDescending(rels), 0, v, k, disc, disc(0));
      CancelInQuotient(v, disc(0), b, Dcg(Head(SortedDescending(rels), k), disc), Dcg(Head(rels, k), disc));
    } else {
      Quotient(0.0, disc(0));
    }
  }

  lemma FirstIsBest(rels: seq<real>, p: nat, v: real)
    requires OnlyRelevant(rels, p, v)
    ensures OnlyRelevant(SortedDescending(rels), 0, v)
  {
    var first := Swapped(rels, 0, p);
    SwapKeepsValues(rels, 0, p);
    assert first[0] == v;
    SortOfDescending(first);
    SortOfSameValues(rels, first);
  }

  lemma OneInHead(rels: seq<real>, p: nat, v: real, k: nat, disc: nat -> real, d: real)
    requires OnlyRelevant(rels, p, v) && d == if p < k then disc(p) else 0.0
    ensures Dcg(Head(rels, k), disc) == v * d
  {
    DcgOfHead(rels, k, |Head(rels, k)|, disc);
    DcgOfOne(rels, p, v, |Head(rels, k)|, disc);
  }

  lemma CancelInQuotient(v: real, a: real, b: real, va: real, vb: real)
    requires v > 0.0 && a > 0.0 && va == v * a && vb == v * b
    ensures va != 0.0 && vb / va == b / a
  {
    var q := b / a;
    Quotient(b, a);
    SignOfProduct(v, a);
    assert vb == q * va;
    QuotientOfProduct(q, va);
  }

  // ---------------------------------------------------------------- MRR

  /** Python's `rels[:k]`, where a negative k counts from the end. */
  function PySlice(rels: seq<real>, k: int): (r: seq<real>)
    ensures r <= rels
    ensures 0 <= k <= |rels| ==> |r| == k
    ensures -|rels| <= k < 0 ==> |rels| - |r| == -k
    ensures k > |rels| ==> r == rels
    ensures k < -|rels| ==> r == []
  {
    if k >= 0 then Head(rels, k)
    else if |rels| + k > 0 then rels[..|rels| + k]
    else []
  }

  /** The reciprocal rank of the first relevant hit among the first k, or 0 when there is none. */
  method MrrAtK(rels: seq<real>, k: int) returns (mrr: real)
    ensures forall i: nat :: i < |PySlice(rels, k)| && rels[i] > 0.0 && (forall j :: 0 <= j < i ==> rels[j] <= 0.0)
              ==> mrr == 1.0 / (i + 1) as real
    ensures (forall i :: 0 <= i < |PySlice(rels, k)| ==> rels[i] <= 0.0) ==> mrr == 0.0
    ensures 0.0 <= mrr <= 1.0
  {
    var window := PySlice(rels, k);
    for i := 0 to |window|
      invariant forall j :: 0 <= j < i ==> rels[j] <= 0.0
    {
      if window[i] > 0.0 {
        Quotient(1.0, (i + 1) as real);
        return 1.0 / (i + 1) as real;
      }
    }
    return 0.0;
  }
}
