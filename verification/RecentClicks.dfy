/** Per-user `recent_clicks` (src/click_rec/kafka/enrichment.py): ZADD, then trim to the
    `cap` highest entries, on every click, compared with the untrimmed history. */
module RecentClicks {
  import opened Order
  import opened ZSets

  datatype Click = Click(item: string, ts: real)

  /** ZADD of one member: inserts it or replaces its score. */
  function ZAdd(z: ZSet, c: Click): ZSet {
    z[c.item := c.ts]
  }

  /** ZADD followed by ZREMRANGEBYRANK 0 -(cap+1). */
  function Record(z: ZSet, c: Click, cap: nat): ZSet {
    Top(ZAdd(z, c), cap)
  }

  /** The stored set after a sequence of clicks. */
  function Trimmed(clicks: seq<Click>, cap: nat): ZSet {
    if clicks == [] then map[]
    else Record(Trimmed(clicks[..|clicks| - 1], cap), clicks[|clicks| - 1], cap)
  }

  /** The reference: every item ever clicked, at the score of its last click. */
  function FullHistory(clicks: seq<Click>): ZSet {
    if clicks == [] then map[]
    else ZAdd(FullHistory(clicks[..|clicks| - 1]), clicks[|clicks| - 1])
  }

  /** ZREVRANGE key 0 n-1. At n = 0 the stop index is -1, which Redis reads as "to the end". */
  ghost function LastItems(z: ZSet, n: nat): seq<string> {
    var d := Descending(z);
    if n == 0 || |d| <= n then d else d[..n]
  }

  /** No click lowers the score its item already has. */
  predicate ScoresNeverDecrease(clicks: seq<Click>) {
    forall i, j :: 0 <= i < j < |clicks| && clicks[i].item == clicks[j].item ==> clicks[i].ts <= clicks[j].ts
  }

  /** A click that demotes a kept item below some trimmed one: the only way a step can lose exactness. */
  predicate DemotesBelowTrimmed(z: ZSet, c: Click, cap: nat) {
    c.item in Top(z, cap) && exists w :: w in z && w !in Top(z, cap) && Beats(z[w], w, c.ts, c.item)
  }

  class RecentClicksKey {
    var zset: ZSet

    constructor ()
      ensures zset == map[]
    {
      zset := map[];
    }

    method UpdateRecentClicks(item: string, ts: real, cap: nat)
      modifies this
      ensures zset == Record(old(zset), Click(item, ts), cap)
    {
      zset := zset[item := ts];
      zset := Top(zset, cap);
    }

    /** Consuming a click stream keeps the stored set equal to the specification of the whole run. */
    method Consume(clicks: seq<Click>, cap: nat)
      requires zset == map[]
      modifies this
      ensures zset == Trimmed(clicks, cap)
    {
      for i := 0 to |clicks|
        invariant zset == Trimmed(clicks[..i], cap)
      {
        UpdateRecentClicks(clicks[i].item, clicks[i].ts, cap);
        assert clicks[..i + 1][..i] == clicks[..i];
      }
      assert clicks[..|clicks|] == clicks;
    }
  }

  lemma {:induction false} FullHistoryScore(clicks: seq<Click>, m: string)
    ensures m in FullHistory(clicks) ==>
              exists i :: 0 <= i < |clicks| && clicks[i].item == m && clicks[i].ts == FullHistory(clicks)[m]
  {
    if clicks != [] {
      var n := |clicks| - 1;
      FullHistoryScore(clicks[..n], m);
      if m in FullHistory(clicks) {
        if m == clicks[n].item {
          assert clicks[n].ts == FullHistory(clicks)[m];
        } else {
          var i :| 0 <= i < n && clicks[..n][i].item == m && clicks[..n][i].ts == FullHistory(clicks[..n])[m];
          assert clicks[i].item == m;
        }
      }
    }
  }

  /** A kept item whose new entry is beaten by a trimmed one drops out of the new top. */
  lemma FarBelowIsNotTop(z: ZSet, c: Click, cap: nat, x: string, w: string)
    requires x in ZAdd(Top(z, cap), c)
    requires w in z && w !in Top(z, cap) && w != c.item
    requires Beats(z[w], w, ZAdd(z, c)[x], x)
    requires c.item in Top(z, cap) ==> Beats(c.ts, c.item, z[w], w)
    ensures x !in Top(ZAdd(Top(z, cap), c), cap)
  {
    var t' := ZAdd(Top(z, cap), c);
    TopSize(z, cap);
    var kept := Top(z, cap).Keys;
    if |z| < cap {
      SubsetSize(kept, z.Keys);
    }
    assert |kept| == cap;
    forall u | u in kept
      ensures u in Higher(t', x)
    {
      KeptBeatTrimmed(z, cap, u, w);
      BeatsTransitive(t'[u], u, z[w], w, t'[x], x);
    }
    SubsetSize(kept, Higher(t', x));
  }

  /** One step: trimming first does not matter unless the click demotes a kept item below a trimmed one. */
  lemma StepExact(z: ZSet, c: Click, cap: nat)
    requires !DemotesBelowTrimmed(z, c, cap)
    ensures Record(Top(z, cap), c, cap) == Record(z, c, cap)
  {
    var z', t' := ZAdd(z, c), ZAdd(Top(z, cap), c);
    forall x | x in z'
      ensures x in Top(t', cap) <==> x in Top(z', cap)
    {
      StepExactAt(z, c, cap, x);
    }
  }

  lemma StepExactAt(z: ZSet, c: Click, cap: nat, x: string)
    requires !DemotesBelowTrimmed(z, c, cap)
    requires x in ZAdd(z, c)
    ensures x in Top(ZAdd(Top(z, cap), c), cap) <==> x in Top(ZAdd(z, c), cap)
  {
    var z', t' := ZAdd(z, c), ZAdd(Top(z, cap), c);
    if x in t' {
      SubsetSize(Higher(t', x), Higher(z', x));
      if w :| w in Higher(z', x) && w !in t' {
        if c.item in Top(z, cap) {
          BeatsTotal(z[w], w, c.ts, c.item);
        }
        FarBelowIsNotTop(z, c, cap, x, w);
      } else {
        assert Higher(z', x) == Higher(t', x);
      }
    } else if x in Top(z', cap) {
      // x was trimmed, so the `cap` kept entries beat it, before and after the click.
      TopSize(z, cap);
      var kept := Top(z, cap).Keys;
      if |z| < cap {
        SubsetSize(kept, z.Keys);
      }
      forall u | u in kept
        ensures u in Higher(z', x)
      {
        KeptBeatTrimmed(z, cap, u, x);
        if u == c.item {
          BeatsTotal(z[x], x, c.ts, c.item);
        }
      }
      SubsetSize(kept, Higher(z', x));
    }
  }

  /** The stored set still holds exactly `cap` items after a demotion, so it keeps the demoted one ... */
  lemma StoredKeepsDemoted(z: ZSet, c: Click, cap: nat)
    requires c.item in Top(z, cap)
    ensures c.item in Record(Top(z, cap), c, cap)
  {
    var t' := ZAdd(Top(z, cap), c);
    assert t'.Keys == Top(z, cap).Keys;
    TopSize(z, cap);
    TopSize(t', cap);
    SubsetSize(Top(t', cap).Keys, t'.Keys);
  }

  /** ... which the full history ranks below the other kept items and w. */
  lemma HistoryDropsDemoted(z: ZSet, c: Click, cap: nat, w: string)
    requires c.item in Top(z, cap) && w in z && w !in Top(z, cap) && Beats(z[w], w, c.ts, c.item)
    ensures c.item !in Record(z, c, cap)
  {
    var z', kept := ZAdd(z, c), Top(z, cap).Keys;
    var above := kept - {c.item} + {w};
    forall u | u in above
      ensures u in Higher(z', c.item)
    {
      if u != w {
        KeptBeatTrimmed(z, cap, u, w);
        BeatsTransitive(z'[u], u, z[w], w, c.ts, c.item);
      }
    }
    SubsetSize(above, Higher(z', c.item));
    TopSize(z, cap);
    SubsetSize(kept + {w}, z.Keys);
    assert |above| == |kept| == cap;
  }

  /** One step, exactly: the stored set stays the top of the full history if and only if the click
      does not demote a kept item below a trimmed one. */
  lemma StepExactIff(z: ZSet, c: Click, cap: nat)
    ensures Record(Top(z, cap), c, cap) == Record(z, c, cap) <==> !DemotesBelowTrimmed(z, c, cap)
  {
    if DemotesBelowTrimmed(z, c, cap) {
      var w :| w in z && w !in Top(z, cap) && Beats(z[w], w, c.ts, c.item);
      StoredKeepsDemoted(z, c, cap);
      HistoryDropsDemoted(z, c, cap, w);
    } else {
      StepExact(z, c, cap);
    }
  }

  /** The stored set agrees with the full history after each of the first n clicks. */
  predicate AgreesUpTo(clicks: seq<Click>, cap: nat, n: nat)
    requires n <= |clicks|
  {
    forall k :: 0 <= k <= n ==> Trimmed(clicks[..k], cap) == Top(FullHistory(clicks[..k]), cap)
  }

  /** None of the first n clicks demotes an item of the history's top below one that is not in it. */
  predicate NeverDemotes(clicks: seq<Click>, cap: nat, n: nat)
    requires n <= |clicks|
  {
    forall k :: 0 <= k < n ==> !DemotesBelowTrimmed(FullHistory(clicks[..k]), clicks[k], cap)
  }

  /** Over whole runs, exactly: the incrementally trimmed set is the top of the full history at every point if
      and only if no click demotes a kept item below a trimmed one. */
  lemma {:induction false} AgreesIffNeverDemotes(clicks: seq<Click>, cap: nat, n: nat)
    requires n <= |clicks|
    ensures AgreesUpTo(clicks, cap, n) <==> NeverDemotes(clicks, cap, n)
  {
    if n == 0 {
      assert clicks[..0] == [];
      assert Top(map[], cap) == map[];
    } else {
      AgreesIffNeverDemotes(clicks, cap, n - 1);
      assert clicks[..n][..n - 1] == clicks[..n - 1];
      StepExactIff(FullHistory(clicks[..n - 1]), clicks[n - 1], cap);
    }
  }

  /** In particular it is when the scores of an item never decrease. */
  lemma TrimmedRefinesFullHistory(clicks: seq<Click>, cap: nat)
    requires ScoresNeverDecrease(clicks)
    ensures Trimmed(clicks, cap) == Top(FullHistory(clicks), cap)
  {
    forall k | 0 <= k < |clicks|
      ensures !DemotesBelowTrimmed(FullHistory(clicks[..k]), clicks[k], cap)
    {
      RisingScoreDemotesNothing(clicks, cap, k);
    }
    AgreesIffNeverDemotes(clicks, cap, |clicks|);
    assert clicks[..|clicks|] == clicks;
  }

  lemma RisingScoreDemotesNothing(clicks: seq<Click>, cap: nat, k: nat)
    requires ScoresNeverDecrease(clicks) && k < |clicks|
    ensures !DemotesBelowTrimmed(FullHistory(clicks[..k]), clicks[k], cap)
  {
    var z, c := FullHistory(clicks[..k]), clicks[k];
    if c.item in Top(z, cap) {
      FullHistoryScore(clicks[..k], c.item);
      forall w | w in z && w !in Top(z, cap)
        ensures !Beats(z[w], w, c.ts, c.item)
      {
        KeptBeatTrimmed(z, cap, c.item, w);
        BeatsTotal(z[w], w, c.ts, c.item);
      }
    }
  }

  /** `get_last_session_items(n)` on the stored set is the newest n of the whole history. */
  lemma LastSessionItemsExact(clicks: seq<Click>, cap: nat, n: nat)
    requires ScoresNeverDecrease(clicks)
    requires 1 <= n <= cap
    ensures LastItems(Trimmed(clicks, cap), n) == LastItems(FullHistory(clicks), n)
  {
    TrimmedRefinesFullHistory(clicks, cap);
    LastItemsOfTop(FullHistory(clicks), cap, n);
  }

  lemma LastItemsOfTop(z: ZSet, cap: nat, n: nat)
    requires 1 <= n <= cap
    ensures LastItems(Top(z, cap), n) == LastItems(z, n)
  {
    TrimKeepsHead(z, cap, n);
    var t, d := Descending(Top(z, cap)), Descending(z);
    assert t[..|t|] == t && d[..|d|] == d;
  }

  /** At most n items come back, except that n = 0 asks for the range 0 .. -1, which is all of them. */
  lemma LastItemsBounded(z: ZSet, n: nat)
    ensures |LastItems(z, n)| <= n <==> n > 0 || z == map[]
  {
    assert |Descending(z)| == |z|;
  }

  /** Replaying a click that was just recorded is a no-op, as the ZADD comment promises. */
  lemma ReplayIsNoOp(z: ZSet, c: Click, cap: nat)
    ensures Record(Record(z, c, cap), c, cap) == Record(z, c, cap)
  {
    var z' := ZAdd(z, c);
    if c.item in Top(z', cap) {
      assert ZAdd(Top(z', cap), c) == Top(z', cap);
      TopIdempotent(z', cap);
    } else {
      assert ZAdd(z', c) == z';
      StepExact(z', c, cap);
    }
  }

  /** A late click with an older timestamp loses an item that the full history still ranks in the top. */
  lemma LateClickDiverges()
    ensures var clicks := [Click("a", 1.0), Click("b", 2.0), Click("b", 0.0)];
            Trimmed(clicks, 1) != Top(FullHistory(clicks), 1)
  {
    var c1, c2, c3 := Click("a", 1.0), Click("b", 2.0), Click("b", 0.0);
    var z2 := FullHistory([c1, c2]);
    assert [c1, c2, c3][..2] == [c1, c2] && [c1, c2][..1] == [c1] && [c1][..0] == [];
    assert FullHistory([c1]) == FullHistory([])["a" := 1.0];
    assert z2 == FullHistory([c1])["b" := 2.0];
    assert z2 == map["a" := 1.0, "b" := 2.0];
    TrimmedRefinesFullHistory([c1, c2], 1);
    assert "a" in Higher(z2, "b") || Higher(z2, "b") == {};
    assert "b" in Higher(z2, "a");
    SubsetSize({"b"}, Higher(z2, "a"));
    assert "b" in Top(z2, 1) && "a" !in Top(z2, 1);
    assert DemotesBelowTrimmed(z2, c3, 1);
    StepExactIff(z2, c3, 1);
  }
}
