/** The query path of the hybrid ranker: channel merge and row fetch (src/click_rec/ranker/candidates.py),
    scoring, and the top-`limit` selection (src/click_rec/ranker/pipeline.py). The two channels' result
    lists, the item table and the other feature signals are arbitrary inputs. */
module Ranking {
  import opened Lists
  import opened StableSort
  import Scorer

  /** One hit of a channel. */
  datatype Hit = Hit(id: string, score: real)
  datatype RawCandidate = RawCandidate(id: string, bm25: Option<real>, vector: Option<real>)
  datatype ItemRow = ItemRow(id: string, title: string, category: string, price: real)
  datatype Candidate = Candidate(row: ItemRow, bm25: Option<real>, vector: Option<real>)
  datatype RankedItem = RankedItem(item: ItemRow, score: real, breakdown: map<Scorer.Feature, real>)

  function HitIds(hits: seq<Hit>): (ids: seq<string>)
    ensures |ids| == |hits|
  {
    seq(|hits|, i requires 0 <= i < |hits| => hits[i].id)
  }

  function RawIds(cands: seq<RawCandidate>): (ids: seq<string>)
    ensures |ids| == |cands|
  {
    seq(|cands|, i requires 0 <= i < |cands| => cands[i].id)
  }

  /** The score a channel gives an item; `None` when the channel did not surface it. */
  function ChannelScore(hits: seq<Hit>, id: string): Option<real> {
    if hits == [] then None
    else if hits[|hits| - 1].id == id then Some(hits[|hits| - 1].score)
    else ChannelScore(hits[..|hits| - 1], id)
  }

  // ---------------------------------------------------------------- merge

  /** The dict of `generate_candidates`: keys in insertion order, and the record of each. */
  ghost predicate MergedSoFar(order: seq<string>, merged: map<string, RawCandidate>, bm25: seq<Hit>, vector: seq<Hit>) {
    && order == Dedup(HitIds(bm25) + HitIds(vector))
    && (forall id :: id in merged <==> id in order)
    && (forall id :: id in merged ==> merged[id] == RawCandidate(id, ChannelScore(bm25, id), ChannelScore(vector, id)))
  }

  /** Every surfaced id once, bm25 hits first, cut at the cap, with the score each channel gives it. */
  function Merged(bm25: seq<Hit>, vector: seq<Hit>, cap: nat): seq<RawCandidate> {
    var ids := Head(Dedup(HitIds(bm25) + HitIds(vector)), cap);
    seq(|ids|, i requires 0 <= i < |ids| =>
      RawCandidate(ids[i], ChannelScore(bm25, ids[i]), ChannelScore(vector, ids[i])))
  }

  /** The query branch of `generate_candidates`. */
  method MergeChannels(bm25: seq<Hit>, vector: seq<Hit>, cap: nat) returns (cands: seq<RawCandidate>)
    ensures cands == Merged(bm25, vector, cap)
    ensures Distinct(RawIds(cands)) && |cands| <= cap
    ensures forall c :: c in cands ==> c.bm25 == ChannelScore(bm25, c.id) && c.vector == ChannelScore(vector, c.id)
  {
    var order: seq<string>, merged: map<string, RawCandidate> := [], map[];
    for i := 0 to |bm25|
      invariant MergedSoFar(order, merged, bm25[..i], [])
    {
      OneMoreBm25(order, merged, bm25, i);
      var id := bm25[i].id;
      order := if id in order then order else order + [id];
      merged := merged[id := RawCandidate(id, Some(bm25[i].score), None)];
    }
    assert bm25[..|bm25|] == bm25;
    for i := 0 to |vector|
      invariant MergedSoFar(order, merged, bm25, vector[..i])
    {
      OneMoreVector(order, merged, bm25, vector, i);
      var id := vector[i].id;
      if id in merged {
        merged := merged[id := merged[id].(vector := Some(vector[i].score))];
      } else {
        order := order + [id];
        merged := merged[id := RawCandidate(id, None, Some(vector[i].score))];
      }
    }
    assert vector[..|vector|] == vector;
    DedupDistinct(HitIds(bm25) + HitIds(vector));
    cands := seq(|order|, i requires 0 <= i < |order| => merged[order[i]]);
    if |cands| > cap {
      cands := cands[..cap];
    }
    assert RawIds(cands) == Head(order, cap);
  }

  lemma OneMoreBm25(order: seq<string>, merged: map<string, RawCandidate>, bm25: seq<Hit>, i: nat)
    requires i < |bm25| && MergedSoFar(order, merged, bm25[..i], [])
    ensures var id := bm25[i].id;
            MergedSoFar(if id in order then order else order + [id],
                        merged[id := RawCandidate(id, Some(bm25[i].score), None)], bm25[..i + 1], [])
  {
    assert bm25[..i + 1][..i] == bm25[..i];
    assert HitIds(bm25[..i + 1]) + HitIds([]) == (HitIds(bm25[..i]) + HitIds([])) + [bm25[i].id];
  }

  lemma OneMoreVector(order: seq<string>, merged: map<string, RawCandidate>, bm25: seq<Hit>, vector: seq<Hit>, i: nat)
    requires i < |vector| && MergedSoFar(order, merged, bm25, vector[..i])
    ensures var id := vector[i].id;
            if id in merged
            then MergedSoFar(order, merged[id := merged[id].(vector := Some(vector[i].score))], bm25, vector[..i + 1])
            else MergedSoFar(order + [id], merged[id := RawCandidate(id, None, Some(vector[i].score))],
                             bm25, vector[..i + 1])
  {
    var id := vector[i].id;
    assert vector[..i + 1][..i] == vector[..i];
    var ids := HitIds(bm25) + HitIds(vector[..i]);
    assert HitIds(bm25) + HitIds(vector[..i + 1]) == ids + [id];
    if id !in merged {
      DedupDistinct(ids);
      NotSurfaced(bm25, id);
      assert id !in HitIds(bm25);
    }
  }

  lemma {:induction false} NotSurfaced(hits: seq<Hit>, id: string)
    ensures ChannelScore(hits, id) == None <==> id !in HitIds(hits)
  {
    if hits != [] {
      NotSurfaced(hits[..|hits| - 1], id);
      assert HitIds(hits) == HitIds(hits[..|hits| - 1]) + [hits[|hits| - 1].id];
    }
  }

  /** bm25 hits come first: within the cap, the merged list starts with the bm25 ids in bm25 order. */
  lemma {:induction false} Bm25First(bm25: seq<string>, vector: seq<string>)
    ensures Dedup(bm25) <= Dedup(bm25 + vector)
  {
    if vector == [] {
      assert bm25 + vector == bm25;
    } else {
      var init := vector[..|vector| - 1];
      Bm25First(bm25, init);
      assert (bm25 + vector)[..|bm25 + vector| - 1] == bm25 + init;
    }
  }

  // ---------------------------------------------------------------- fetch

  /** The candidates whose row still exists, in candidate order, with their channel scores. */
  function Joined(raw: seq<RawCandidate>, table: map<string, ItemRow>): seq<Candidate> {
    if raw == [] then []
    else
      var init, c := Joined(raw[..|raw| - 1], table), raw[|raw| - 1];
      if c.id in table then init + [Candidate(table[c.id], c.bm25, c.vector)] else init
  }

  predicate KeyedById(table: map<string, ItemRow>) {
    forall id :: id in table ==> table[id].id == id
  }

  /** `fetch_candidate_rows`: one SELECT, then a join in candidate order. */
  method FetchCandidateRows(raw: seq<RawCandidate>, table: map<string, ItemRow>) returns (out: seq<Candidate>)
    requires KeyedById(table)
    ensures out == Joined(raw, table)
  {
    if raw == [] {
      return [];
    }
    var byId := map id | id in table && id in RawIds(raw) :: table[id];
    out := [];
    for i := 0 to |raw|
      invariant out == Joined(raw[..i], table)
    {
      assert raw[..i + 1][..i] == raw[..i];
      assert RawIds(raw)[i] == raw[i].id;
      if raw[i].id in byId {
        out := out + [Candidate(byId[raw[i].id], raw[i].bm25, raw[i].vector)];
      }
    }
    assert raw[..|raw|] == raw;
  }

  /** `at` lists the positions of the fetched candidates in the raw list, and no other survivor exists. */
  ghost predicate IsSubsequence(raw: seq<RawCandidate>, table: map<string, ItemRow>, at: seq<nat>) {
    && |at| == |Joined(raw, table)|
    && (forall j :: 0 <= j < |at| ==> FetchedFrom(raw, table, Joined(raw, table)[j], at[j]))
    && (forall j, k :: 0 <= j < k < |at| ==> at[j] < at[k])
    && (forall i: nat :: i < |raw| && raw[i].id in table ==> i in at)
  }

  predicate FetchedFrom(raw: seq<RawCandidate>, table: map<string, ItemRow>, c: Candidate, i: nat) {
    i < |raw| && raw[i].id in table && c == Candidate(table[raw[i].id], raw[i].bm25, raw[i].vector)
  }

  /** The fetch keeps a subsequence: exactly the candidates whose row exists, in candidate order. */
  lemma {:induction false} FetchKeepsSubsequence(raw: seq<RawCandidate>, table: map<string, ItemRow>)
    returns (at: seq<nat>)
    ensures IsSubsequence(raw, table, at)
  {
    at := [];
    if raw != [] {
      var n := |raw| - 1;
      var init := FetchKeepsSubsequence(raw[..n], table);
      at := if raw[n].id in table then init + [n] else init;
      OneMoreFetched(raw, table, init, at);
    }
  }

  lemma OneMoreFetched(raw: seq<RawCandidate>, table: map<string, ItemRow>, init: seq<nat>, at: seq<nat>)
    requires raw != [] && IsSubsequence(raw[..|raw| - 1], table, init)
    requires at == if raw[|raw| - 1].id in table then init + [|raw| - 1] else init
    ensures IsSubsequence(raw, table, at)
  {
    var n := |raw| - 1;
    forall j | 0 <= j < |at|
      ensures FetchedFrom(raw, table, Joined(raw, table)[j], at[j])
      ensures j < |init| ==> at[j] < n
    {
      if j < |init| {
        assert FetchedFrom(raw[..n], table, Joined(raw[..n], table)[j], init[j]);
      }
    }
    forall i: nat | i < |raw| && raw[i].id in table
      ensures i in at
    {
      if i < n {
        assert raw[..n][i] == raw[i];
        assert i in init;
      } else {
        assert at[|init|] == n;
      }
    }
  }

  // ---------------------------------------------------------------- top `limit`

  function Negated(scores: seq<real>): seq<real> {
    seq(|scores|, i requires 0 <= i < |scores| => -scores[i])
  }

  /** Index i is returned ahead of index j: higher score, or equal score and earlier candidate. */
  predicate Ahead(scores: seq<real>, i: nat, j: nat)
    requires i < |scores| && j < |scores|
  {
    scores[i] > scores[j] || (scores[i] == scores[j] && i < j)
  }

  /** `idx` selects the best min(limit, n) candidates: none is beaten by an omitted one. */
  ghost predicate IsTopSelection(scores: seq<real>, limit: nat, idx: seq<nat>) {
    && |idx| == (if limit < |scores| then limit else |scores|)
    && (forall p :: 0 <= p < |idx| ==> idx[p] < |scores|)
    && (forall p, q :: 0 <= p < q < |idx| ==> Ahead(scores, idx[p], idx[q]))
    && (forall p, o :: 0 <= p < |idx| && 0 <= o < |scores| && o !in idx ==> Ahead(scores, idx[p], o))
  }

  /** `sorted(range(n), key=lambda i: scores[i], reverse=True)[:limit]` */
  method SelectTop(scores: seq<real>, limit: nat) returns (idx: seq<nat>)
    ensures IsTopSelection(scores, limit, idx)
  {
    var keys := Negated(scores);
    var ord := SortedIndices(keys);
    SortedIndicesCorrect(keys);
    idx := Head(ord, limit);
    forall p, o: nat | 0 <= p < |idx| && o < |scores| && o !in idx
      ensures Ahead(scores, idx[p], o)
    {
      assert o in ord;
      var q :| 0 <= q < |ord| && ord[q] == o;
      assert forall r :: 0 <= r < |idx| ==> ord[r] == idx[r];
      assert Before(keys, ord[p], ord[q]);
    }
  }

  // ---------------------------------------------------------------- end to end

  /** A feature signal per item, for the five features that do not come from the channels. */
  type Signals = (Scorer.Feature, string) -> Option<real>

  /** `gather_features`: channel scores come straight off the candidates. */
  function Features(cands: seq<Candidate>, signals: Signals): (m: map<Scorer.Feature, Scorer.Column>)
    ensures Scorer.Aligned(m, |cands|)
    ensures forall i :: 0 <= i < |cands| ==>
              m[Scorer.Bm25][i] == cands[i].bm25 && m[Scorer.Vector][i] == cands[i].vector
    ensures forall f, i :: f != Scorer.Bm25 && f != Scorer.Vector && 0 <= i < |cands| ==>
              m[f][i] == signals(f, cands[i].row.id)
  {
    var m := map[Scorer.Bm25 := Column(cands, signals, Scorer.Bm25),
        Scorer.Vector := Column(cands, signals, Scorer.Vector),
        Scorer.Popularity := Column(cands, signals, Scorer.Popularity),
        Scorer.Recency := Column(cands, signals, Scorer.Recency),
        Scorer.Personal := Column(cands, signals, Scorer.Personal),
        Scorer.CoClick := Column(cands, signals, Scorer.CoClick),
        Scorer.PriceFit := Column(cands, signals, Scorer.PriceFit)];
    Scorer.AlignedFromList(m, |cands|);
    m
  }

  function Column(cands: seq<Candidate>, signals: Signals, f: Scorer.Feature): (c: Scorer.Column)
    ensures |c| == |cands|
  {
    seq(|cands|, i requires 0 <= i < |cands| =>
      match f
      case Bm25 => cands[i].bm25
      case Vector => cands[i].vector
      case _ => signals(f, cands[i].row.id))
  }

  function Scores(cands: seq<Candidate>, signals: Signals, cfg: Scorer.RankerConfig): (s: seq<real>)
    ensures |s| == |cands|
  {
    seq(|cands|, i requires 0 <= i < |cands| =>
      Scorer.Total(Features(cands, signals), cfg, |cands|, 7, i))
  }

  /** The candidates that reach the scorer. */
  function Fetched(bm25: seq<Hit>, vector: seq<Hit>, cap: nat, table: map<string, ItemRow>): seq<Candidate> {
    Joined(Merged(bm25, vector, cap), table)
  }

  /** The whole query path: the answer is the top selection, under the linear scorer, of the merged and
      fetched candidates. */
  method RankQuery(bm25: seq<Hit>, vector: seq<Hit>, table: map<string, ItemRow>, signals: Signals,
                   cfg: Scorer.RankerConfig, cap: nat, limit: nat)
    returns (out: seq<RankedItem>, ghost idx: seq<nat>)
    requires KeyedById(table)
    ensures var cands := Fetched(bm25, vector, cap, table);
            && IsTopSelection(Scores(cands, signals, cfg), limit, idx)
            && |out| == |idx|
            && forall p :: 0 <= p < |out| ==> out[p].item == cands[idx[p]].row
                                              && out[p].score == Scores(cands, signals, cfg)[idx[p]]
    ensures var cands := Fetched(bm25, vector, cap, table);
            forall p :: 0 <= p < |out| ==>
              Scorer.IsNamedScore(out[p].score, out[p].breakdown, Features(cands, signals), cfg, |cands|, idx[p])
    ensures |out| <= limit
    ensures forall p :: 0 <= p < |out| ==>
              (forall f: Scorer.Feature :: f in out[p].breakdown)
              && Scorer.IsSevenTerms(out[p].score, out[p].breakdown)
  {
    var raw := MergeChannels(bm25, vector, cap);
    var cands := FetchCandidateRows(raw, table);
    if raw == [] || cands == [] {
      out, idx := [], [];
      return;
    }
    var features := Features(cands, signals);
    var scored := Scorer.Score(features, cfg);
    var scores := scored.scores;
    assert scores == Scores(cands, signals, cfg);
    var top := SelectTop(scores, limit);
    idx := top;
    var breakdowns := scored.breakdowns;
    out := seq(|top|, p requires 0 <= p < |top| && top[p] < |cands| == |scores| == |breakdowns| =>
      RankedItem(cands[top[p]].row, scores[top[p]], breakdowns[top[p]]));
  }

  /** What a caller sees of a top selection of the fetched candidates: distinct existing items, each
      surfaced by a channel, in non-increasing score order. */
  lemma AnswerIsSound(bm25: seq<Hit>, vector: seq<Hit>, cap: nat, table: map<string, ItemRow>,
                      scores: seq<real>, limit: nat, idx: seq<nat>)
    requires KeyedById(table)
    requires |scores| == |Fetched(bm25, vector, cap, table)| && IsTopSelection(scores, limit, idx)
    ensures var cands := Fetched(bm25, vector, cap, table);
            && (forall p, q :: 0 <= p < q < |idx| ==>
                  cands[idx[p]].row.id != cands[idx[q]].row.id && scores[idx[p]] >= scores[idx[q]])
            && (forall p :: 0 <= p < |idx| ==>
                  var c := cands[idx[p]];
                  && c.row.id in table && c.row == table[c.row.id]
                  && (c.row.id in HitIds(bm25) || c.row.id in HitIds(vector)))
  {
    var raw, cands := Merged(bm25, vector, cap), Fetched(bm25, vector, cap, table);
    var ids := HitIds(bm25) + HitIds(vector);
    var at := FetchKeepsSubsequence(raw, table);
    DedupDistinct(ids);
    forall p, q | 0 <= p < q < |idx|
      ensures cands[idx[p]].row.id != cands[idx[q]].row.id && scores[idx[p]] >= scores[idx[q]]
    {
      assert Ahead(scores, idx[p], idx[q]);
      var i, j := at[idx[p]], at[idx[q]];
      assert i != j;
      assert raw[i].id == Dedup(ids)[i] && raw[j].id == Dedup(ids)[j];
    }
    forall p | 0 <= p < |idx|
      ensures cands[idx[p]].row.id in HitIds(bm25) || cands[idx[p]].row.id in HitIds(vector)
    {
      var i := at[idx[p]];
      assert raw[i].id == Dedup(ids)[i];
      assert raw[i].id in ids;
    }
  }

  /** With non-negative weights, a fetched candidate at least as good as a returned one in every feature
      is itself returned ahead of it, unless the two tie and it comes later in candidate order. */
  lemma BetterCandidateRanksAhead(cands: seq<Candidate>, signals: Signals, cfg: Scorer.RankerConfig,
                                  limit: nat, idx: seq<nat>, p: nat, j: nat)
    requires Scorer.NonNegativeWeights(cfg)
    requires IsTopSelection(Scores(cands, signals, cfg), limit, idx) && p < |idx| && j < |cands|
    requires Scorer.Dominates(Features(cands, signals), |cands|, j, idx[p])
    ensures j != idx[p] ==>
              || (exists q :: 0 <= q < p && idx[q] == j)
              || (Scores(cands, signals, cfg)[j] == Scores(cands, signals, cfg)[idx[p]] && idx[p] < j)
  {
    var scores := Scores(cands, signals, cfg);
    Scorer.TotalMonotone(Features(cands, signals), cfg, |cands|, 7, idx[p], j);
    assert j !in idx ==> Ahead(scores, idx[p], j);
    if j in idx {
      var q :| 0 <= q < |idx| && idx[q] == j;
      assert p < q ==> Ahead(scores, idx[p], idx[q]);
    }
  }
}
