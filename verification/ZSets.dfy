/** Redis sorted sets: a map from members to scores, ranked by (score, member).
    Ranks are counted from the top, as ZREVRANGE does. */
module ZSets {
  import opened Order

  type ZSet = map<string, real>

  /** Entry (s, m) ranks strictly above entry (t, n). */
  predicate Beats(s: real, m: string, t: real, n: string) {
    s > t || (s == t && StrLess(n, m))
  }

  /** The members that rank strictly above `m`. */
  function Higher(z: ZSet, m: string): set<string>
    requires m in z
  {
    set x | x in z && Beats(z[x], x, z[m], m)
  }

  /** What ZREMRANGEBYRANK key 0 -(cap+1) leaves: the `cap` highest entries. */
  function Top(z: ZSet, cap: nat): ZSet {
    map m | m in z && |Higher(z, m)| < cap :: z[m]
  }

  /** `s` lists `z` from the highest entry down: the entry at position i has exactly i above it. */
  ghost predicate Listing(z: ZSet, s: seq<string>) {
    |s| == |z| && forall i :: 0 <= i < |s| ==> s[i] in z && |Higher(z, s[i])| == i
  }

  lemma BeatsTotal(s: real, m: string, t: real, n: string)
    ensures m != n ==> Beats(s, m, t, n) || Beats(t, n, s, m)
    ensures !(Beats(s, m, t, n) && Beats(t, n, s, m))
    ensures !Beats(s, m, s, m)
  {
    StrLessTotal(m, n);
    StrLessIsStrict(m);
    if StrLess(m, n) && StrLess(n, m) {
      StrLessTransitive(m, n, m);
    }
  }

  lemma BeatsTransitive(s: real, m: string, t: real, n: string, u: real, o: string)
    requires Beats(s, m, t, n) && Beats(t, n, u, o)
    ensures Beats(s, m, u, o)
  {
    if s == t == u {
      StrLessTransitive(o, n, m);
    }
  }

  lemma HigherIsUpward(z: ZSet, x: string, y: string)
    requires x in z && y in z && x in Higher(z, y)
    ensures Higher(z, x) < Higher(z, y)
  {
    BeatsTotal(z[x], x, z[x], x);
    forall u | u in Higher(z, x)
      ensures u in Higher(z, y)
    {
      BeatsTransitive(z[u], u, z[x], x, z[y], y);
    }
  }

  lemma SubsetSize<T>(a: set<T>, b: set<T>)
    requires a <= b
    ensures |a| <= |b|
    ensures a != b ==> |a| < |b|
  {
    assert b == a + (b - a);
  }

  lemma {:induction false} HasLowest(z: ZSet) returns (m: string)
    requires z != map[]
    ensures m in z && forall x :: x in z && x != m ==> Beats(z[x], x, z[m], m)
  {
    var k :| k in z;
    var rest := z - {k};
    if rest == map[] {
      assert forall x :: x in z && x != k ==> x in rest;
      m := k;
    } else {
      var l := HasLowest(rest);
      BeatsTotal(z[k], k, z[l], l);
      if Beats(z[k], k, z[l], l) {
        m := l;
        assert forall x :: x in z && x != k ==> x in rest;
      } else {
        m := k;
        forall x | x in z && x != k
          ensures Beats(z[x], x, z[k], k)
        {
          assert x in rest;
          if x != l {
            BeatsTransitive(z[x], x, z[l], l, z[k], k);
          }
        }
      }
    }
  }

  lemma WithoutLowest(z: ZSet, m: string)
    requires m in z && forall x :: x in z && x != m ==> Beats(z[x], x, z[m], m)
    ensures |z - {m}| == |z| - 1
    ensures |Higher(z, m)| == |z| - 1
    ensures forall x :: x in z && x != m ==> Higher(z, x) == Higher(z - {m}, x)
  {
    var rest := z - {m};
    assert rest.Keys == z.Keys - {m};
    BeatsTotal(z[m], m, z[m], m);
    assert Higher(z, m) == rest.Keys;
    forall x | x in z && x != m
      ensures Higher(z, x) == Higher(rest, x)
    {
      BeatsTotal(z[x], x, z[m], m);
    }
  }

  /** Trimming keeps exactly min(cap, |z|) entries. */
  lemma {:induction false} TopSize(z: ZSet, cap: nat)
    ensures |Top(z, cap)| == if |z| < cap then |z| else cap
    decreases |z|
  {
    if z == map[] {
      assert Top(z, cap) == map[];
    } else {
      var m := HasLowest(z);
      WithoutLowest(z, m);
      TopSize(z - {m}, cap);
      TopWithoutLowest(z, cap, m);
    }
  }

  lemma TopWithoutLowest(z: ZSet, cap: nat, m: string)
    requires m in z && |Higher(z, m)| == |z| - 1
    requires forall x :: x in z && x != m ==> Higher(z, x) == Higher(z - {m}, x)
    ensures |Top(z, cap)| == |Top(z - {m}, cap)| + if |z| <= cap then 1 else 0
  {
    var all, rest := Top(z, cap).Keys, Top(z - {m}, cap).Keys;
    forall x | x in z && x != m
      ensures x in all <==> x in rest
    {
      assert Higher(z, x) == Higher(z - {m}, x);
    }
    assert |Top(z, cap)| == |all| && |Top(z - {m}, cap)| == |rest|;
    assert m in all <==> |z| <= cap;
    assert all - {m} == rest - {m} == rest;
  }

  lemma TopIsUpward(z: ZSet, cap: nat, x: string)
    requires x in Top(z, cap)
    ensures forall u :: u in Higher(z, x) ==> u in Top(z, cap)
    ensures Higher(Top(z, cap), x) == Higher(z, x)
  {
    forall u | u in Higher(z, x)
      ensures u in Top(z, cap)
    {
      HigherIsUpward(z, u, x);
      SubsetSize(Higher(z, u), Higher(z, x));
    }
  }

  /** Every kept entry ranks above every trimmed entry. */
  lemma KeptBeatTrimmed(z: ZSet, cap: nat, x: string, y: string)
    requires x in Top(z, cap) && y in z && y !in Top(z, cap)
    ensures Beats(z[x], x, z[y], y)
  {
    BeatsTotal(z[x], x, z[y], y);
    if Beats(z[y], y, z[x], x) {
      TopIsUpward(z, cap, x);
    }
  }

  /** Trimming an already trimmed set changes nothing. */
  lemma TopIdempotent(z: ZSet, cap: nat)
    ensures Top(Top(z, cap), cap) == Top(z, cap)
  {
    forall x | x in Top(z, cap)
      ensures x in Top(Top(z, cap), cap)
    {
      TopIsUpward(z, cap, x);
    }
  }

  lemma {:induction false} ListingExists(z: ZSet)
    ensures exists s :: Listing(z, s)
    decreases |z|
  {
    if z == map[] {
      assert Listing(z, []);
    } else {
      var m := HasLowest(z);
      WithoutLowest(z, m);
      ListingExists(z - {m});
      var t :| Listing(z - {m}, t);
      assert Listing(z, t + [m]);
    }
  }

  lemma SameRankSameMember(z: ZSet, x: string, y: string)
    requires x in z && y in z && |Higher(z, x)| == |Higher(z, y)|
    ensures x == y
  {
    BeatsTotal(z[x], x, z[y], y);
    if x != y {
      var lo, hi := if Beats(z[x], x, z[y], y) then y else x, if Beats(z[x], x, z[y], y) then x else y;
      HigherIsUpward(z, hi, lo);
      SubsetSize(Higher(z, hi), Higher(z, lo));
    }
  }

  /** ZREVRANGE key 0 -1. */
  ghost function Descending(z: ZSet): (s: seq<string>)
    ensures Listing(z, s)
  {
    ListingExists(z);
    var s :| Listing(z, s);
    s
  }

  /** Trimming to `cap` does not change the first `n <= cap` entries of the listing. */
  lemma TrimKeepsHead(z: ZSet, cap: nat, n: nat)
    requires n <= cap
    ensures var t, d := Descending(Top(z, cap)), Descending(z);
            t[..if |t| < n then |t| else n] == d[..if |d| < n then |d| else n]
  {
    var top := Top(z, cap);
    var t, d := Descending(top), Descending(z);
    TopSize(z, cap);
    var k := if |t| < n then |t| else n;
    forall i | 0 <= i < k
      ensures t[i] == d[i]
    {
      TopIsUpward(z, cap, t[i]);
      SameRankSameMember(z, t[i], d[i]);
    }
    assert t[..k] == d[..k];
  }
}
