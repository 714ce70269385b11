/** The co-click table: written by `upsert_co_clicks` (src/click_rec/kafka/enrichment.py),
    read by `co_click_scores` (src/click_rec/ranker/features.py). */
module CoClicks {
  import opened Lists
  import opened Order

  /** Primary key (item_a, item_b) of a row, and its count. */
  type Pair = (string, string)
  type Table = map<Pair, nat>

  function Canon(a: string, b: string): Pair {
    (StrMin(a, b), StrMax(a, b))
  }

  /** `{(min(a,b), max(a,b)) for a, b in combinations(unique, 2)}` */
  function Combinations(unique: seq<string>): set<Pair> {
    set i, j | 0 <= i < j < |unique| :: Canon(unique[i], unique[j])
  }

  function Count(t: Table, p: Pair): nat {
    if p in t then t[p] else 0
  }

  /** INSERT ... ON CONFLICT DO UPDATE SET count = count + 1 for every pair of the window. */
  function Upserted(t: Table, items: seq<string>): Table {
    var unique := Dedup(items);
    if |unique| < 2 then t
    else
      var pairs := Combinations(unique);
      map p | p in t.Keys + pairs :: Count(t, p) + if p in pairs then 1 else 0
  }

  /** The table after a sequence of upserted session windows. */
  function After(windows: seq<seq<string>>): Table {
    if windows == [] then map[]
    else Upserted(After(windows[..|windows| - 1]), windows[|windows| - 1])
  }

  predicate Canonical(t: Table) {
    forall p :: p in t ==> StrLess(p.0, p.1)
  }

  /** Sum of the counts of the rows that link `c` to one of `rs` other than itself. */
  function Links(t: Table, c: string, rs: seq<string>): nat {
    if rs == [] then 0
    else
      var r := rs[|rs| - 1];
      Links(t, c, rs[..|rs| - 1]) + if r == c then 0 else Count(t, Canon(c, r))
  }

  /** The (window, r) pairs that `co_click_scores` is meant to count for candidate `c`. */
  function Together(windows: seq<seq<string>>, c: string, rs: set<string>): set<(int, string)> {
    set i, r | 0 <= i < |windows| && r in rs && r != c && c in windows[i] && r in windows[i] :: (i, r)
  }

  /** The windows that contain both items. */
  function Both(windows: seq<seq<string>>, a: string, b: string): set<int> {
    set i | 0 <= i < |windows| && a in windows[i] && b in windows[i]
  }

  class CoClickStore {
    var rows: Table

    constructor ()
      ensures rows == map[]
    {
      rows := map[];
    }

    method UpsertCoClicks(items: seq<string>)
      modifies this
      ensures rows == Upserted(old(rows), items)
      ensures forall p :: Count(rows, p) == Count(old(rows), p) + if IsPairOf(p, items) then 1 else 0
      ensures forall p :: p in rows <==> p in old(rows) || IsPairOf(p, items)
    {
      ghost var before := rows;
      forall p
        ensures Count(Upserted(before, items), p) == Count(before, p) + if IsPairOf(p, items) then 1 else 0
        ensures p in Upserted(before, items) <==> p in before || IsPairOf(p, items)
      {
        UpsertedCounts(before, items, p);
      }
      var unique := DictFromKeys(items);
      if |unique| < 2 {
        return;
      }
      var pairs := Combinations(unique);
      rows := map p | p in rows.Keys + pairs :: Count(rows, p) + if p in pairs then 1 else 0;
    }

    method CoClickScores(cands: seq<string>, recent: seq<string>) returns (scores: seq<nat>)
      requires Canonical(rows)
      ensures |scores| == |cands|
      ensures forall k :: 0 <= k < |cands| ==> scores[k] == Links(rows, cands[k], Dedup(recent))
    {
      if cands == [] || recent == [] {
        scores := seq(|cands|, _ => 0);
        return;
      }
      DedupDistinct(recent);
      ghost var rs := Dedup(recent);
      var recentSet := set r | r in recent;
      var candSet := set c | c in cands;
      // The rows selected by the query, in whatever order the database returns them.
      var todo := Selected(rows, candSet, recentSet);
      var counts: map<string, nat> := map c | c in candSet :: 0;
      ghost var done: Table := map[];
      NothingTallied(counts, candSet, rs);
      while todo != {}
        invariant todo <= Selected(rows, candSet, recentSet)
        invariant done.Keys == Selected(rows, candSet, recentSet) - todo
        invariant forall p :: p in done ==> done[p] == rows[p]
        invariant Tallies(counts, done, candSet, rs)
        decreases todo
      {
        var p :| p in todo;
        var n := rows[p];
        RowTallied(counts, done, p, n, candSet, recentSet, rs);
        if p.0 in candSet && p.1 in recentSet {
          counts := Add(counts, p.0, n);
        }
        if p.1 in candSet && p.0 in recentSet {
          counts := Add(counts, p.1, n);
        }
        done := done[p := n];
        todo := todo - {p};
      }
      scores := seq(|cands|, k requires 0 <= k < |cands| => counts[cands[k]]);
      forall k | 0 <= k < |cands|
        ensures scores[k] == Links(rows, cands[k], rs)
      {
        SelectionSuffices(done, rows, cands[k], rs);
      }
    }
  }

  /** `counts[id] = counts.get(id, 0) + n` */
  function Add(counts: map<string, nat>, id: string, n: nat): map<string, nat> {
    counts[id := n + if id in counts then counts[id] else 0]
  }

  function Selected(rows: Table, cands: set<string>, recent: set<string>): set<Pair> {
    set p | p in rows && ((p.0 in recent && p.1 in cands) || (p.0 in cands && p.1 in recent))
  }

  /** `counts` holds every candidate's links over the rows read so far. */
  ghost predicate Tallies(counts: map<string, nat>, done: Table, cands: set<string>, rs: seq<string>) {
    counts.Keys == cands && forall c :: c in cands ==> counts[c] == Links(done, c, rs)
  }

  lemma NothingTallied(counts: map<string, nat>, cands: set<string>, rs: seq<string>)
    requires counts.Keys == cands && forall c :: c in cands ==> counts[c] == 0
    ensures Tallies(counts, map[], cands, rs)
  {
    forall c | c in cands
      ensures Links(map[], c, rs) == 0
    {
      LinksOfEmpty(c, rs);
    }
  }

  lemma RowTallied(counts: map<string, nat>, done: Table, p: Pair, n: nat,
                   cands: set<string>, recent: set<string>, rs: seq<string>)
    requires Tallies(counts, done, cands, rs)
    requires p !in done && StrLess(p.0, p.1)
    requires Distinct(rs) && forall r :: r in rs <==> r in recent
    ensures var one := if p.0 in cands && p.1 in recent then Add(counts, p.0, n) else counts;
            var two := if p.1 in cands && p.0 in recent then Add(one, p.1, n) else one;
            Tallies(two, done[p := n], cands, rs)
  {
    StrLessIsStrict(p.0);
    forall c | c in cands
      ensures Links(done[p := n], c, rs) ==
              Links(done, c, rs) + Contributed(p, n, c, rs)
    {
      AddRow(done, p, n, c, rs);
    }
  }

  /** `dict.fromkeys` as a loop. */
  method DictFromKeys(items: seq<string>) returns (unique: seq<string>)
    ensures unique == Dedup(items)
  {
    unique := [];
    for i := 0 to |items|
      invariant unique == Dedup(items[..i])
    {
      assert items[..i + 1][..i] == items[..i];
      if items[i] !in unique {
        unique := unique + [items[i]];
      }
    }
    assert items[..|items|] == items;
  }

  /** The combinations of a window are exactly its ordered pairs of different items. */
  lemma CombinationsExact(items: seq<string>, p: Pair)
    ensures p in Combinations(Dedup(items)) <==> p.0 in items && p.1 in items && StrLess(p.0, p.1)
  {
    var u := Dedup(items);
    DedupDistinct(items);
    if p in Combinations(u) {
      var i, j :| 0 <= i < j < |u| && p == Canon(u[i], u[j]);
      CanonicalPair(u[i], u[j]);
    }
    if p.0 in items && p.1 in items && StrLess(p.0, p.1) {
      var i, j :| 0 <= i < |u| && 0 <= j < |u| && u[i] == p.0 && u[j] == p.1;
      StrLessIsStrict(p.0);
      CanonicalPair(u[i], u[j]);
      if StrLess(p.1, p.0) {
        StrLessTransitive(p.0, p.1, p.0);
      }
      assert p == Canon(u[i], u[j]) == Canon(u[j], u[i]);
    }
  }

  /** Two different items of the window, in order. */
  predicate IsPairOf(p: Pair, items: seq<string>) {
    p.0 in items && p.1 in items && StrLess(p.0, p.1)
  }

  /** An upsert counts each pair of the window once more and leaves the other rows alone. */
  lemma UpsertedCounts(t: Table, items: seq<string>, p: Pair)
    ensures Count(Upserted(t, items), p) == Count(t, p) + if IsPairOf(p, items) then 1 else 0
    ensures p in Upserted(t, items) <==> p in t || IsPairOf(p, items)
  {
    CombinationsExact(items, p);
    DedupDistinct(items);
    if IsPairOf(p, items) {
      StrLessIsStrict(p.0);
      assert p.0 in Dedup(items) && p.1 in Dedup(items) && p.0 != p.1;
    }
  }

  /** Rows always satisfy item_a < item_b, so an unordered pair has one row. */
  lemma {:induction false} TableCanonical(windows: seq<seq<string>>)
    ensures Canonical(After(windows))
  {
    if windows != [] {
      var n := |windows| - 1;
      TableCanonical(windows[..n]);
      forall p | p in After(windows)
        ensures StrLess(p.0, p.1)
      {
        CombinationsExact(windows[n], p);
      }
    }
  }

  lemma {:induction false} LinksOfEmpty(c: string, rs: seq<string>)
    ensures Links(map[], c, rs) == 0
  {
    if rs != [] {
      LinksOfEmpty(c, rs[..|rs| - 1]);
    }
  }

  /** Row p links c and r. */
  predicate Joins(p: Pair, c: string, r: string) {
    (p.0 == c && p.1 == r) || (p.1 == c && p.0 == r)
  }

  /** What row p with count n contributes to the links of `c`: once for each end that is `c` with the other
      end in `rs`. */
  function Contributed(p: Pair, n: nat, c: string, rs: seq<string>): nat {
    (if p.0 == c && p.1 in rs then n else 0) + if p.1 == c && p.0 in rs then n else 0
  }

  lemma {:induction false} AddRow(t: Table, p: Pair, n: nat, c: string, rs: seq<string>)
    requires p !in t && StrLess(p.0, p.1) && Distinct(rs)
    ensures Links(t[p := n], c, rs) == Links(t, c, rs) + Contributed(p, n, c, rs)
  {
    if rs != [] {
      var init, r := rs[..|rs| - 1], rs[|rs| - 1];
      AddRow(t, p, n, c, init);
      assert rs == init + [r] && r !in init;
      AddRowStep(t, p, n, c, init, r);
    }
  }

  lemma AddRowStep(t: Table, p: Pair, n: nat, c: string, init: seq<string>, r: string)
    requires p !in t && StrLess(p.0, p.1) && r !in init
    requires Links(t[p := n], c, init) == Links(t, c, init) + Contributed(p, n, c, init)
    ensures Links(t[p := n], c, init + [r]) == Links(t, c, init + [r]) + Contributed(p, n, c, init + [r])
  {
    StrLessIsStrict(p.0);
    assert (init + [r])[..|init|] == init;
    if r != c {
      AddRowCount(t, p, n, c, r);
    }
  }

  lemma AddRowCount(t: Table, p: Pair, n: nat, c: string, r: string)
    requires p !in t && StrLess(p.0, p.1) && c != r
    ensures Count(t[p := n], Canon(c, r)) == Count(t, Canon(c, r)) + if Joins(p, c, r) then n else 0
  {
    CanonIsOrdered(p, c, r);
  }

  lemma CanonIsOrdered(p: Pair, c: string, r: string)
    requires StrLess(p.0, p.1) && c != r
    ensures Canon(c, r) == p <==> Joins(p, c, r)
  {
    CanonicalPair(c, r);
    StrLessIsStrict(p.0);
    if StrLess(p.1, p.0) {
      StrLessTransitive(p.0, p.1, p.0);
    }
  }

  lemma {:induction false} SelectionSuffices(part: Table, t: Table, c: string, rs: seq<string>)
    requires forall p :: p in part ==> p in t && part[p] == t[p]
    requires forall p :: p in t && ((p.0 == c && p.1 in rs) || (p.1 == c && p.0 in rs)) ==> p in part
    ensures Links(part, c, rs) == Links(t, c, rs)
  {
    if rs != [] {
      var init, r := rs[..|rs| - 1], rs[|rs| - 1];
      SelectionSuffices(part, t, c, init);
      if r != c {
        CanonicalPair(c, r);
      }
    }
  }

  /** A row counts exactly the windows that hold both of its items. */
  lemma {:induction false} RowCountsWindows(windows: seq<seq<string>>, a: string, b: string)
    requires a != b
    ensures Count(After(windows), Canon(a, b)) == |Both(windows, a, b)|
  {
    if windows != [] {
      var n := |windows| - 1;
      var before, w := windows[..n], windows[n];
      RowCountsWindows(before, a, b);
      CanonicalPair(a, b);
      UpsertedCounts(After(before), w, Canon(a, b));
      OneMoreBoth(windows, a, b);
    } else {
      assert Both(windows, a, b) == {};
    }
  }

  lemma OneMoreBoth(windows: seq<seq<string>>, a: string, b: string)
    requires windows != []
    ensures var n := |windows| - 1;
            |Both(windows, a, b)| == |Both(windows[..n], a, b)| + if a in windows[n] && b in windows[n] then 1 else 0
  {
    var n := |windows| - 1;
    var before := Both(windows[..n], a, b);
    assert n !in before;
    assert Both(windows, a, b) == if a in windows[n] && b in windows[n] then before + {n} else before;
  }

  function Tagged<T>(s: set<T>, r: string): set<(T, string)> {
    set i | i in s :: (i, r)
  }

  lemma {:induction false} TaggedSize<T>(s: set<T>, r: string)
    ensures |Tagged(s, r)| == |s|
  {
    var image := Tagged(s, r);
    if s != {} {
      var k :| k in s;
      TaggedSize(s - {k}, r);
      assert image == Tagged(s - {k}, r) + {(k, r)};
    } else {
      assert image == {};
    }
  }

  /** Write and read side agree: the links of `c` are the (window, r) pairs with both items in the window. */
  lemma {:induction false} LinksCountTogether(windows: seq<seq<string>>, c: string, rs: seq<string>)
    requires Distinct(rs)
    ensures Links(After(windows), c, rs) == |Together(windows, c, set r | r in rs)|
  {
    if rs == [] {
      assert Together(windows, c, set r | r in rs) == {};
    } else {
      var init, r := rs[..|rs| - 1], rs[|rs| - 1];
      LinksCountTogether(windows, c, init);
      assert rs == init + [r] && r !in init;
      OneMoreRecent(windows, c, (set x | x in init), r);
      assert (set x | x in rs) == (set x | x in init) + {r};
      if r != c {
        RowCountsWindows(windows, c, r);
      }
    }
  }

  lemma OneMoreRecent(windows: seq<seq<string>>, c: string, rs: set<string>, r: string)
    requires r !in rs
    ensures |Together(windows, c, rs + {r})| ==
            |Together(windows, c, rs)| + if r == c then 0 else |Both(windows, c, r)|
  {
    var prior, all := Together(windows, c, rs), Together(windows, c, rs + {r});
    if r == c {
      assert all == prior;
    } else {
      var both := Both(windows, c, r);
      var tagged := Tagged(both, r);
      TaggedSize(both, r);
      assert all == prior + tagged;
      assert prior !! tagged;
    }
  }

  /** A row whose two ends are both candidate and recent exists, and counts once for each end. */
  lemma BothEndsCount()
    ensures var windows, both := [["a", "b"]], ["a", "b"];
            && Count(After(windows), Canon("a", "b")) == 1
            && Links(After(windows), "a", both) == 1 && Links(After(windows), "b", both) == 1
  {
    var windows, both := [["a", "b"]], ["a", "b"];
    CanonicalPair("a", "b");
    RowCountsWindows(windows, "a", "b");
    assert Both(windows, "a", "b") == {0};
    var t, one := After(windows), ["a"];
    assert both == one + ["b"] && one[..0] == [];
    assert Canon("b", "a") == Canon("a", "b");
    forall c: string
      ensures Links(t, c, one) == if c == "a" then 0 else Count(t, Canon(c, "a"))
      ensures Links(t, c, both) == Links(t, c, one) + if c == "b" then 0 else Count(t, Canon(c, "b"))
    {
      assert both[..1] == one && both[1] == "b" && one[0] == "a";
    }
  }

  /** End to end: after any windows, a candidate's score is the number of (window, recent item) pairs
      in which it was clicked together with another recent item, whether or not it is recent itself. */
  method ScoreAfter(windows: seq<seq<string>>, cands: seq<string>, recent: seq<string>) returns (scores: seq<nat>)
    ensures |scores| == |cands|
    ensures forall k :: 0 <= k < |cands| ==> scores[k] == |Together(windows, cands[k], set r | r in recent)|
  {
    var store := new CoClickStore();
    for i := 0 to |windows|
      invariant store.rows == After(windows[..i])
      invariant fresh(store)
    {
      store.UpsertCoClicks(windows[i]);
      assert windows[..i + 1][..i] == windows[..i];
    }
    assert windows[..|windows|] == windows;
    TableCanonical(windows);
    scores := store.CoClickScores(cands, recent);
    DedupDistinct(recent);
    forall k | 0 <= k < |cands|
      ensures scores[k] == |Together(windows, cands[k], set r | r in recent)|
    {
      LinksCountTogether(windows, cands[k], Dedup(recent));
      assert (set r | r in Dedup(recent)) == (set r | r in recent);
    }
  }
}
