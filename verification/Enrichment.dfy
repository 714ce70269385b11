/** The co-click side of `apply_enrichment` (src/click_rec/kafka/enrichment.py) over many users: read the
    session, build the window with the current click in front, upsert its pairs, record the click. */
module Enrichment {
  import opened Lists
  import opened Order
  import opened ZSets
  import opened RecentClicks
  import opened CoClicks

  datatype Event = Event(user: string, click: Click)

  /** `([event.item_id] + prior_items)[:session_window]` */
  ghost function SessionItems(z: ZSet, item: string, window: nat): seq<string> {
    Head([item] + LastItems(z, window), window)
  }

  /** One user's clicks, in order. */
  function ClicksOf(events: seq<Event>, user: string): seq<Click> {
    if events == [] then []
    else
      var e := events[|events| - 1];
      ClicksOf(events[..|events| - 1], user) + if e.user == user then [e.click] else []
  }

  /** The window of event i as the code builds it, from the trimmed set. */
  ghost function Window(events: seq<Event>, i: nat, window: nat, cap: nat): seq<string>
    requires i < |events|
  {
    SessionItems(Trimmed(ClicksOf(events[..i], events[i].user), cap), events[i].click.item, window)
  }

  ghost function Windows(events: seq<Event>, window: nat, cap: nat): seq<seq<string>> {
    seq(|events|, i requires 0 <= i < |events| => Window(events, i, window, cap))
  }

  /** The reference: the clicked item, then the newest items of the user's whole history before it. */
  ghost function HistoryWindow(events: seq<Event>, i: nat, window: nat): seq<string>
    requires i < |events|
  {
    SessionItems(FullHistory(ClicksOf(events[..i], events[i].user)), events[i].click.item, window)
  }

  function RecentOf(recent: map<string, ZSet>, user: string): ZSet {
    if user in recent then recent[user] else map[]
  }

  class Stores {
    const window: nat
    const cap: nat
    var recent: map<string, ZSet>
    var table: Table

    constructor (window: nat, cap: nat)
      ensures this.window == window && this.cap == cap && recent == map[] && table == map[]
    {
      this.window, this.cap := window, cap;
      recent, table := map[], map[];
    }

    method ApplyEnrichment(e: Event)
      modifies this
      ensures recent == old(recent)[e.user := Record(RecentOf(old(recent), e.user), e.click, cap)]
      ensures table == Upserted(old(table), SessionItems(RecentOf(old(recent), e.user), e.click.item, window))
    {
      var zset := RecentOf(recent, e.user);
      var priorItems := GetLastSessionItems(zset, window);
      var sessionItems := Head([e.click.item] + priorItems, window);
      var store := new CoClickStore();
      store.rows := table;
      store.UpsertCoClicks(sessionItems);
      table := store.rows;
      recent := recent[e.user := Record(zset, e.click, cap)];
    }

    /** Every event enriched once, in order. */
    method Consume(events: seq<Event>)
      requires recent == map[] && table == map[]
      modifies this
      ensures forall u :: RecentOf(recent, u) == Trimmed(ClicksOf(events, u), cap)
      ensures table == After(Windows(events, window, cap))
    {
      for i := 0 to |events|
        invariant forall u :: RecentOf(recent, u) == Trimmed(ClicksOf(events[..i], u), cap)
        invariant table == After(Windows(events[..i], window, cap))
      {
        OneMoreWindow(events, i, window, cap);
        ApplyEnrichment(events[i]);
        forall u
          ensures RecentOf(recent, u) == Trimmed(ClicksOf(events[..i + 1], u), cap)
        {
          OneMoreClick(events, i, u, cap);
        }
      }
      assert events[..|events|] == events;
    }
  }

  lemma OneMoreWindow(events: seq<Event>, i: nat, window: nat, cap: nat)
    requires i < |events|
    ensures Windows(events[..i + 1], window, cap) ==
            Windows(events[..i], window, cap) + [Window(events, i, window, cap)]
    ensures After(Windows(events[..i + 1], window, cap)) ==
            Upserted(After(Windows(events[..i], window, cap)), Window(events, i, window, cap))
  {
    var before, after := Windows(events[..i], window, cap), Windows(events[..i + 1], window, cap);
    assert events[..i + 1][..i] == events[..i];
    forall j | 0 <= j < i
      ensures after[j] == before[j]
    {
      assert events[..i + 1][..j] == events[..i][..j];
    }
    assert after[..i] == before;
  }

  lemma OneMoreClick(events: seq<Event>, i: nat, u: string, cap: nat)
    requires i < |events|
    ensures var before, after := ClicksOf(events[..i], u), ClicksOf(events[..i + 1], u);
            Trimmed(after, cap) ==
            if events[i].user == u then Record(Trimmed(before, cap), events[i].click, cap) else Trimmed(before, cap)
  {
    var next := events[..i + 1];
    assert next[..|next| - 1] == events[..i] && next[|next| - 1] == events[i];
    if events[i].user == u {
      TrimmedAppend(ClicksOf(events[..i], u), events[i].click, cap);
    } else {
      assert ClicksOf(next, u) == ClicksOf(events[..i], u);
    }
  }

  lemma TrimmedAppend(clicks: seq<Click>, c: Click, cap: nat)
    ensures Trimmed(clicks + [c], cap) == Record(Trimmed(clicks, cap), c, cap)
  {
    assert (clicks + [c])[..|clicks|] == clicks;
  }

  /** `get_last_session_items`: ZREVRANGE, entry by entry. */
  method GetLastSessionItems(z: ZSet, n: nat) returns (items: seq<string>)
    ensures items == LastItems(z, n)
  {
    ghost var d := Descending(z);
    var k := if n == 0 || |z| <= n then |z| else n;
    items := [];
    for i := 0 to k
      invariant items == d[..i]
    {
      assert d[i] in z && |Higher(z, d[i])| == i;
      var m :| m in z && |Higher(z, m)| == i;
      SameRankSameMember(z, m, d[i]);
      items := items + [m];
    }
    assert d[..|d|] == d;
  }

  // ---------------------------------------------------------------- against the full history

  lemma {:induction false} ClicksOfPrefix(events: seq<Event>, i: nat, user: string)
    requires i <= |events|
    ensures ClicksOf(events[..i], user) <= ClicksOf(events, user)
    decreases |events| - i
  {
    if i < |events| {
      ClicksOfPrefix(events, i + 1, user);
      assert events[..i + 1][..i] == events[..i];
    } else {
      assert events[..i] == events;
    }
  }

  /** Trimming never shows: for users whose scores do not decrease, each window is the one of the full history. */
  lemma WindowsAreExact(events: seq<Event>, window: nat, cap: nat)
    requires window <= cap
    requires forall u :: ScoresNeverDecrease(ClicksOf(events, u))
    ensures |Windows(events, window, cap)| == |events|
    ensures forall i :: 0 <= i < |events| ==> Windows(events, window, cap)[i] == HistoryWindow(events, i, window)
  {
    forall i | 0 <= i < |events|
      ensures Windows(events, window, cap)[i] == HistoryWindow(events, i, window)
    {
      WindowIsExact(events, i, window, cap);
    }
  }

  lemma WindowIsExact(events: seq<Event>, i: nat, window: nat, cap: nat)
    requires window <= cap && i < |events| && ScoresNeverDecrease(ClicksOf(events, events[i].user))
    ensures Window(events, i, window, cap) == HistoryWindow(events, i, window)
  {
    var user := events[i].user;
    ClicksOfPrefix(events, i, user);
    PrefixNeverDecreases(ClicksOf(events[..i], user), ClicksOf(events, user));
    if window > 0 {
      LastSessionItemsExact(ClicksOf(events[..i], user), cap, window);
    }
  }

  lemma PrefixNeverDecreases(a: seq<Click>, b: seq<Click>)
    requires a <= b && ScoresNeverDecrease(b)
    ensures ScoresNeverDecrease(a)
  {
    assert forall i :: 0 <= i < |a| ==> a[i] == b[i];
  }

  /** The events whose history window holds both items. */
  ghost function Linking(events: seq<Event>, window: nat, a: string, b: string): set<int> {
    set i | 0 <= i < |events| && a in HistoryWindow(events, i, window) && b in HistoryWindow(events, i, window)
  }

  /** What a co-click row means, end to end: after enriching every event once and in order, the row of two
      items counts the clicks in whose session, taken from the full click history, both of them lie. */
  lemma RowCountsSharedSessions(events: seq<Event>, window: nat, cap: nat, a: string, b: string)
    requires window <= cap && a != b
    requires forall u :: ScoresNeverDecrease(ClicksOf(events, u))
    ensures Count(After(Windows(events, window, cap)), Canon(a, b)) == |Linking(events, window, a, b)|
  {
    WindowsAreExact(events, window, cap);
    RowCountsWindows(Windows(events, window, cap), a, b);
    assert Both(Windows(events, window, cap), a, b) == Linking(events, window, a, b);
  }

  /** The window in full: the clicked item, then the newest items of the set, newest first, `window` entries in all
      or as many as there are. */
  lemma WindowInFull(z: ZSet, item: string, window: nat)
    ensures |Descending(z)| == |z|
    ensures var items := SessionItems(z, item, window);
            && |items| == (if window <= |z| then window else |z| + 1)
            && (window > 0 ==> items[0] == item)
            && forall p :: 0 < p < |items| ==> items[p] == Descending(z)[p - 1]
  {
  }

  /** The current click is never sliced out: with a window of at least 2, it is linked with the item its
      user clicked last, if that is another one, however long the session already is. */
  lemma CurrentClickIsLinked(z: ZSet, item: string, window: nat)
    requires window >= 2
    ensures var items := SessionItems(z, item, window);
            && 1 <= |items| <= window && items[0] == item
            && (z != map[] ==> Descending(z)[0] in items)
            && forall t, b :: b in items && b != item ==>
                 Count(Upserted(t, items), Canon(item, b)) == Count(t, Canon(item, b)) + 1
  {
    var items := SessionItems(z, item, window);
    assert items[0] == item;
    if z != map[] {
      assert items[1] == Descending(z)[0];
    }
    forall t: Table, b | b in items && b != item
      ensures Count(Upserted(t, items), Canon(item, b)) == Count(t, Canon(item, b)) + 1
    {
      PairIsCounted(t, items, item, b);
    }
  }

  lemma PairIsCounted(t: Table, items: seq<string>, a: string, b: string)
    requires a in items && b in items && a != b
    ensures Count(Upserted(t, items), Canon(a, b)) == Count(t, Canon(a, b)) + 1
  {
    CanonicalPair(a, b);
    UpsertedCounts(t, items, Canon(a, b));
  }
}
